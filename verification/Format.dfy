/** What a format string and its arguments render to, without regard to any buffer.
    Floating-point conversions are not covered. */
module Format {
  import opened Options
  import opened NumberText
  import opened NumberReading

  /** An argument of the variable argument list. Pointers are passed as integers. */
  datatype Arg = IntArg(value: int) | StrArg(text: string)

  /** A conversion specification while it is being read. */
  datatype Spec = Spec(flags: Flags, width: nat, prec: nat, pos: nat, args: seq<Arg>)

  /** `va_arg` as a signed type with `modulus` values. */
  function ToSigned(x: int, modulus: nat): (r: int)
    requires modulus > 0
    ensures 0 <= 2 * r + modulus && 2 * r < modulus && (r == x % modulus || r == x % modulus - modulus)
  {
    var m := x % modulus;
    if 2 * m >= modulus then m - modulus else m
  }

  // ---------------------------------------------------------------- %[flags][width][.precision][length]

  function FlagOf(c: char, flags: Flags): Option<Flags> {
    match c
    case '0' => Some(flags.(zeropad := true))
    case '-' => Some(flags.(left := true))
    case '+' => Some(flags.(plus := true))
    case ' ' => Some(flags.(space := true))
    case '#' => Some(flags.(hash := true))
    case _ => None
  }

  function ParseFlags(fmt: string, pos: nat, flags: Flags): (r: (Flags, nat))
    requires pos <= |fmt|
    ensures pos <= r.1 <= |fmt|
    decreases |fmt| - pos
  {
    if pos < |fmt| && FlagOf(fmt[pos], flags).Some?
    then ParseFlags(fmt, pos + 1, FlagOf(fmt[pos], flags).value)
    else (flags, pos)
  }

  lemma {:induction false} AtoiStays(fmt: string, pos: nat, acc: nat)
    requires pos <= |fmt|
    ensures pos <= AtoiFrom(fmt, pos, acc).1 <= |fmt|
    decreases |fmt| - pos
  {
    if pos < |fmt| && IsDigit(fmt[pos], 10) {
      AtoiStays(fmt, pos + 1, (acc * 10 + DigitOf(fmt[pos])) % TWO_32);
    }
  }

  /** The width field: digits, or `*` with an argument whose negation does not overflow. */
  function ParseWidth(fmt: string, s: Spec): (r: Option<Spec>)
    requires s.pos <= |fmt|
    ensures r.Some? ==> s.pos <= r.value.pos <= |fmt|
  {
    if s.pos < |fmt| && IsDigit(fmt[s.pos], 10) then
      AtoiStays(fmt, s.pos, 0);
      var (w, p) := AtoiFrom(fmt, s.pos, 0);
      Some(s.(width := w, pos := p))
    else if s.pos < |fmt| && fmt[s.pos] == '*' then
      if s.args == [] || !s.args[0].IntArg? then None
      else
        var w := ToSigned(s.args[0].value, TWO_32);
        if 2 * w == -TWO_32 then None
        else if w < 0 then
          Some(s.(flags := s.flags.(left := true), width := -w, pos := s.pos + 1, args := s.args[1..]))
        else Some(s.(width := w, pos := s.pos + 1, args := s.args[1..]))
    else Some(s)
  }

  function ParsePrecision(fmt: string, s: Spec): (r: Option<Spec>)
    requires s.pos <= |fmt|
    ensures r.Some? ==> s.pos <= r.value.pos <= |fmt|
  {
    if s.pos < |fmt| && fmt[s.pos] == '.' then
      var s := s.(flags := s.flags.(precision := true), pos := s.pos + 1);
      if s.pos < |fmt| && IsDigit(fmt[s.pos], 10) then
        AtoiStays(fmt, s.pos, 0);
        var (n, p) := AtoiFrom(fmt, s.pos, 0);
        Some(s.(prec := n, pos := p))
      else if s.pos < |fmt| && fmt[s.pos] == '*' then
        if s.args == [] || !s.args[0].IntArg? then None
        else
          var n := ToSigned(s.args[0].value, TWO_32);
          Some(s.(prec := if n > 0 then n else 0, pos := s.pos + 1, args := s.args[1..]))
      else Some(s)
    else Some(s)
  }

  /** The length field; `long`, `ptrdiff_t`, `intmax_t` and `size_t` are all 64 bits wide. */
  function ParseLength(fmt: string, s: Spec): (r: Spec)
    requires s.pos <= |fmt|
    ensures s.pos <= r.pos <= |fmt|
  {
    if s.pos == |fmt| then s
    else
      var two := s.pos + 1 < |fmt| && fmt[s.pos + 1] == fmt[s.pos];
      var next := if two then s.pos + 2 else s.pos + 1;
      match fmt[s.pos]
      case 'l' => s.(flags := s.flags.(long := true, longLong := two || s.flags.longLong), pos := next)
      case 'h' => s.(flags := s.flags.(short := true, chr := two || s.flags.chr), pos := next)
      case 't' => s.(flags := s.flags.(long := true), pos := s.pos + 1)
      case 'j' => s.(flags := s.flags.(long := true), pos := s.pos + 1)
      case 'z' => s.(flags := s.flags.(long := true), pos := s.pos + 1)
      case _ => s
  }

  /** Everything between `%` and the conversion character. */
  function ParseSpec(fmt: string, pos: nat, args: seq<Arg>): (r: Option<Spec>)
    requires pos <= |fmt|
    ensures r.Some? ==> pos <= r.value.pos <= |fmt|
  {
    var (flags, p) := ParseFlags(fmt, pos, NO_FLAGS);
    match ParseWidth(fmt, Spec(flags, 0, 0, p, args))
    case None => None
    case Some(s) =>
      match ParsePrecision(fmt, s)
      case None => None
      case Some(s) => Some(ParseLength(fmt, s))
  }

  // ---------------------------------------------------------------- conversions

  predicate IsIntegerConversion(c: char) {
    c == 'd' || c == 'i' || c == 'u' || c == 'x' || c == 'X' || c == 'o' || c == 'b'
  }

  predicate IsSignedConversion(c: char) {
    c == 'd' || c == 'i'
  }

  predicate IsFloatConversion(c: char) {
    c == 'f' || c == 'F' || c == 'e' || c == 'E' || c == 'g' || c == 'G'
  }

  function BaseOf(c: char): (base: nat)
    ensures IsBase(base)
  {
    if c == 'x' || c == 'X' then 16 else if c == 'o' then 8 else if c == 'b' then 2 else 10
  }

  /** The flags after the adjustments for an integer conversion. */
  function IntegerFlags(c: char, flags: Flags): (f: Flags)
    ensures f.plus == (flags.plus && (c == 'd' || c == 'i')) && f.space == (flags.space && (c == 'd' || c == 'i'))
    ensures f.zeropad == (flags.zeropad && !flags.precision) && f.left == flags.left && f.precision == flags.precision
    ensures f.hash == (flags.hash && (c == 'x' || c == 'X' || c == 'o' || c == 'b'))
    ensures f.uppercase == (flags.uppercase || c == 'X')
    ensures f.chr == flags.chr && f.short == flags.short && f.long == flags.long && f.longLong == flags.longLong
  {
    flags.(hash := flags.hash && BaseOf(c) != 10,
           uppercase := flags.uppercase || c == 'X',
           plus := flags.plus && IsSignedConversion(c),
           space := flags.space && IsSignedConversion(c),
           zeropad := flags.zeropad && !flags.precision)
  }

  /** The signed value that the length flags select; `char` is unsigned on AArch64. */
  function SignedArg(flags: Flags, x: int): int {
    if flags.longLong || flags.long then ToSigned(x, TWO_64)
    else if flags.chr then x % 0x100
    else if flags.short then ToSigned(x, 0x1_0000)
    else ToSigned(x, TWO_32)
  }

  function UnsignedArg(flags: Flags, x: int): nat {
    if flags.longLong || flags.long then x % TWO_64
    else if flags.chr then x % 0x100
    else if flags.short then x % 0x1_0000
    else x % TWO_32
  }

  /** `0 - value` would overflow. */
  predicate Unnegatable(flags: Flags, v: int) {
    if flags.longLong || flags.long then 2 * v == -TWO_64 else 2 * v == -TWO_32
  }

  function Magnitude(v: int): nat {
    if v < 0 then -v else v
  }

  function IntegerField(c: char, s: Spec, x: int): Option<string> {
    var flags := IntegerFlags(c, s.flags);
    if IsSignedConversion(c) then
      var v := SignedArg(flags, x);
      if Unnegatable(flags, v) then None
      else Some(Ntoa(Magnitude(v), v < 0, BaseOf(c), s.prec, s.width, flags))
    else Some(Ntoa(UnsignedArg(flags, x), false, BaseOf(c), s.prec, s.width, flags))
  }

  /** Text padded with spaces to the width. */
  function Padded(text: string, width: nat, left: bool): (r: string)
    ensures |r| == Max(width, |text|)
    ensures if left then text <= r else r[|r| - |text|..] == text
  {
    if left then text + Repeat(' ', width - |text|) else Repeat(' ', width - |text|) + text
  }

  /** The fill consists of blanks. */
  lemma PaddedWithBlanks(text: string, width: nat, left: bool, i: nat)
    requires i < |Padded(text, width, left)|
    ensures var r := Padded(text, width, left);
      (if left then |text| <= i else i < |r| - |text|) ==> r[i] == ' '
  {
  }

  function CharField(s: Spec, x: int): string {
    Padded([(x % 0x100) as char], s.width, s.flags.left)
  }

  /** A string, cut at the precision if one is given. */
  function Clipped(text: string, s: Spec): (r: string)
    ensures r <= text && |r| == if s.flags.precision then Min(s.prec, |text|) else |text|
  {
    if s.flags.precision && s.prec < |text| then text[..s.prec] else text
  }

  function PointerField(s: Spec, x: int): string {
    Ntoa(x % TWO_64, false, 16, s.prec, 16, s.flags.(zeropad := true, uppercase := true))
  }

  /** The text of a complete specification and the arguments left over. */
  function Convert(fmt: string, s: Spec): (r: Option<(string, seq<Arg>)>)
    requires s.pos <= |fmt|
    ensures r.Some? ==> s.pos < |fmt|
  {
    if s.pos == |fmt| || fmt[s.pos] == '\0' || IsFloatConversion(fmt[s.pos]) then None
    else
      var c := fmt[s.pos];
      if IsIntegerConversion(c) || c == 'c' || c == 'p' then
        if s.args == [] || !s.args[0].IntArg? then None
        else
          var x := s.args[0].value;
          if IsIntegerConversion(c) then
            match IntegerField(c, s, x)
            case None => None
            case Some(text) => Some((text, s.args[1..]))
          else Some((if c == 'c' then CharField(s, x) else PointerField(s, x), s.args[1..]))
      else if c == 's' then
        if s.args == [] || !s.args[0].StrArg? || '\0' in s.args[0].text then None
        else Some((Padded(Clipped(s.args[0].text, s), s.width, s.flags.left), s.args[1..]))
      else Some(([c], s.args))
  }

  /** The format ends at position `pos`: with the string, or at a NUL in it. */
  predicate AtEnd(fmt: string, pos: nat) {
    pos >= |fmt| || fmt[pos] == '\0'
  }

  /** The full rendering from position `pos`, or `None` when a specification is incomplete, an
      argument is missing or of the wrong kind, or a conversion is not covered. */
  function Render(fmt: string, pos: nat, args: seq<Arg>): Option<string>
    requires pos <= |fmt|
    decreases |fmt| - pos
  {
    if AtEnd(fmt, pos) then Some([])
    else if fmt[pos] != '%' then
      match Render(fmt, pos + 1, args)
      case None => None
      case Some(rest) => Some([fmt[pos]] + rest)
    else
      match ParseSpec(fmt, pos + 1, args)
      case None => None
      case Some(s) =>
        match Convert(fmt, s)
        case None => None
        case Some((text, left)) =>
          match Render(fmt, s.pos + 1, left)
          case None => None
          case Some(rest) => Some(text + rest)
  }

  /** One turn of the output loop takes an ordinary character or a whole specification. */
  lemma RenderTurn(fmt: string, pos: nat, args: seq<Arg>)
    requires pos <= |fmt| && !AtEnd(fmt, pos) && Render(fmt, pos, args).Some?
    ensures fmt[pos] != '%' ==>
      && Render(fmt, pos + 1, args).Some?
      && Render(fmt, pos, args).value == [fmt[pos]] + Render(fmt, pos + 1, args).value
    ensures fmt[pos] == '%' ==>
      && ParseSpec(fmt, pos + 1, args).Some?
      && var s := ParseSpec(fmt, pos + 1, args).value;
         && Convert(fmt, s).Some?
         && var (text, left) := Convert(fmt, s).value;
            && Render(fmt, s.pos + 1, left).Some?
            && Render(fmt, pos, args).value == text + Render(fmt, s.pos + 1, left).value
  {
    hide ParseSpec, Convert;
  }

  lemma RenderEnd(fmt: string, pos: nat, args: seq<Arg>)
    requires pos <= |fmt| && AtEnd(fmt, pos)
    ensures Render(fmt, pos, args) == Some([])
  {
  }

  /** A rendered integer reads back as the value that the conversion and length select from the
      argument, for every width, precision and flag except `#`, if and only if the field shows a
      digit and that value is not negative or its sign fits, and, in binary, has no more than
      32 bits. A field without a digit is a zero with a precision of 0 or left-justified. */
  lemma IntegerReadsBack(c: char, s: Spec, x: int)
    requires IsIntegerConversion(c) && !IntegerFlags(c, s.flags).hash
    requires IntegerField(c, s, x).Some?
    ensures var flags := IntegerFlags(c, s.flags);
      var v := if c == 'd' || c == 'i' then SignedArg(flags, x) else UnsignedArg(flags, x);
      var base := if c == 'x' || c == 'X' then 16 else if c == 'o' then 8 else if c == 'b' then 2 else 10;
      var field := IntegerField(c, s, x).value;
      var digit := v != 0 || !s.flags.precision || (!s.flags.left && s.prec > 0);
      && (ReadNumber(field, base).None? <==> !digit)
      && (ReadNumber(field, base) == Some(v)
          <==> digit && (v >= 0 || SignFits(s.prec, s.width, flags)) && (c == 'b' ==> v < TWO_32))
      && |field| == FieldLength(|NtoaDigits(Magnitude(v), base, flags)|, v < 0, s.prec, s.width, flags)
  {
    hide Ntoa, ReadNumber, FieldLength, NtoaDigits, ZeroWidth;
    var flags := IntegerFlags(c, s.flags);
    var v := if IsSignedConversion(c) then SignedArg(flags, x) else UnsignedArg(flags, x);
    if c == 'b' {
      BinaryReadsBack(v, s.prec, s.width, flags);
    } else {
      FieldReadsBack(Magnitude(v), v < 0, BaseOf(c), s.prec, s.width, flags);
    }
  }

  // ---------------------------------------------------------------- parsing undoes printing

  lemma RenderUnsigned(v: nat)
    requires v < TWO_32
    ensures Render("%u", 0, [IntArg(v)]) == Some(UnsignedText(v))
  {
    hide Ntoa;
    var fmt, args := "%u", [IntArg(v)];
    assert ParseSpec(fmt, 1, args) == Some(Spec(NO_FLAGS, 0, 0, 1, args));
    assert IntegerField('u', Spec(NO_FLAGS, 0, 0, 1, args), v) == Some(UnsignedText(v));
    assert args[1..] == [];
    assert Convert(fmt, Spec(NO_FLAGS, 0, 0, 1, args)) == Some((UnsignedText(v), []));
    assert Render(fmt, 2, []) == Some([]) && UnsignedText(v) + [] == UnsignedText(v);
  }

  /** Parsing undoes printing: `_atoi` on the `%u` rendering of an unsigned 32-bit value, followed by
      a character that is not a digit, returns the value and stops at that character. */
  lemma AtoiUndoesPrint(v: nat, before: string, after: string)
    requires v < TWO_32 && after != [] && !IsDigit(after[0], 10)
    ensures Render("%u", 0, [IntArg(v)]).Some?
    ensures var text := Render("%u", 0, [IntArg(v)]).value;
      AtoiFrom(before + text + after, |before|, 0) == (v, |before| + |text|)
  {
    hide Render, UnsignedText, AtoiFrom, Value, AllDigits;
    RenderUnsigned(v);
    PlainText(v);
    AtoiText(UnsignedText(v), before, after);
  }
}
