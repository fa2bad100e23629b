/** Reading a printed number back, by a reference reader and by the formatter's own `_atoi`. */
module NumberReading {
  import opened Options
  import opened NumberText

  // ---------------------------------------------------------------- a reference reader

  function SkipSpaces(s: string): string {
    if s != [] && s[0] == ' ' then SkipSpaces(s[1..]) else s
  }

  /** Length of the longest prefix of digits. */
  function DigitRun(s: string, base: nat): (n: nat)
    ensures n <= |s|
  {
    if s != [] && IsDigit(s[0], base) then 1 + DigitRun(s[1..], base) else 0
  }

  function SignedValue(negative: bool, magnitude: int): int {
    if negative then -magnitude else magnitude
  }

  predicate HasSign(s: string) {
    s != [] && (s[0] == '-' || s[0] == '+')
  }

  /** The number written in a field: blanks, an optional sign, at least one digit, blanks. */
  function ReadNumber(s: string, base: nat): Option<int> {
    var t := SkipSpaces(s);
    var u := if HasSign(t) then t[1..] else t;
    var n := DigitRun(u, base);
    if n == 0 || SkipSpaces(u[n..]) != [] then None
    else Some(SignedValue(HasSign(t) && t[0] == '-', ReadDigits(u, base)))
  }

  function ReadDigits(s: string, base: nat): nat {
    Value(s[..DigitRun(s, base)], base)
  }

  // ---------------------------------------------------------------- lemmas about the reader

  lemma {:induction false} SkipRepeat(n: nat, t: string)
    requires t == [] || t[0] != ' '
    ensures SkipSpaces(Repeat(' ', n) + t) == t
  {
    if n == 0 {
      assert Repeat(' ', n) + t == t;
    } else {
      assert (Repeat(' ', n) + t)[1..] == Repeat(' ', n - 1) + t;
      SkipRepeat(n - 1, t);
    }
  }

  lemma {:induction false} RunExact(d: string, rest: string, base: nat)
    requires AllDigits(d, base) && (rest == [] || !IsDigit(rest[0], base))
    ensures DigitRun(d + rest, base) == |d|
  {
    if d == [] {
      assert d + rest == rest;
    } else {
      assert (d + rest)[1..] == d[1..] + rest;
      RunExact(d[1..], rest, base);
    }
  }

  /** Reading digits that are followed by blanks. */
  lemma ReadExact(d: string, post: nat, base: nat)
    requires AllDigits(d, base)
    ensures var s := d + Repeat(' ', post);
      DigitRun(s, base) == |d| && ReadDigits(s, base) == Value(d, base) && SkipSpaces(s[|d|..]) == []
  {
    var rest := Repeat(' ', post);
    RunExact(d, rest, base);
    assert (d + rest)[..|d|] == d && (d + rest)[|d|..] == rest + [];
    SkipRepeat(post, []);
  }

  lemma {:induction false} LeadingZeros(zeros: nat, d: string, base: nat)
    ensures Value(Repeat('0', zeros) + d, base) == Value(d, base)
    decreases zeros + |d|
  {
    var s := Repeat('0', zeros) + d;
    if d == [] {
      if zeros > 0 {
        assert s[..|s| - 1] == Repeat('0', zeros - 1) + d;
        LeadingZeros(zeros - 1, d, base);
      }
    } else {
      assert s[..|s| - 1] == Repeat('0', zeros) + d[..|d| - 1];
      LeadingZeros(zeros, d[..|d| - 1], base);
    }
  }

  /** A sign and digits between blanks; without a digit there is no number. */
  lemma ReadField(pre: nat, sign: string, core: string, post: nat, base: nat)
    requires IsBase(base) && AllDigits(core, base)
    requires sign == "-" || sign == "+" || sign == " " || sign == ""
    ensures ReadNumber(Repeat(' ', pre) + (sign + core) + Repeat(' ', post), base)
         == if core == [] then None else Some(SignedValue(sign == "-", Value(core, base)))
  {
    if sign == "-" || sign == "+" {
      ReadSigned(pre, sign, core, post, base);
    } else {
      ReadUnsigned(pre, sign, core, post, base);
    }
  }

  lemma ReadSigned(pre: nat, sign: string, core: string, post: nat, base: nat)
    requires IsBase(base) && AllDigits(core, base) && (sign == "-" || sign == "+")
    ensures ReadNumber(Repeat(' ', pre) + (sign + core) + Repeat(' ', post), base)
         == if core == [] then None else Some(SignedValue(sign == "-", Value(core, base)))
  {
    hide ReadDigits, SkipSpaces, Value, DigitRun;
    var tail := core + Repeat(' ', post);
    assert Repeat(' ', pre) + (sign + core) + Repeat(' ', post) == Repeat(' ', pre) + (sign + tail);
    ReadExact(core, post, base);
    SkipRepeat(pre, sign + tail);
    assert (sign + tail)[1..] == tail;
  }

  lemma ReadUnsigned(pre: nat, sign: string, core: string, post: nat, base: nat)
    requires IsBase(base) && AllDigits(core, base) && (sign == " " || sign == "")
    ensures ReadNumber(Repeat(' ', pre) + (sign + core) + Repeat(' ', post), base)
         == if core == [] then None else Some(Value(core, base))
  {
    hide ReadNumber, Value;
    var s := Repeat(' ', pre) + (sign + core) + Repeat(' ', post);
    var n := pre + |sign|;
    if core != [] {
      assert s == Repeat(' ', n) + (core + Repeat(' ', post));
      ReadPlain(n, core, post, base);
    } else {
      assert s == Repeat(' ', n + post);
      ReadBlank(n + post, base);
    }
  }

  lemma ReadPlain(pre: nat, core: string, post: nat, base: nat)
    requires IsBase(base) && AllDigits(core, base) && core != []
    ensures ReadNumber(Repeat(' ', pre) + (core + Repeat(' ', post)), base) == Some(Value(core, base))
  {
    hide ReadDigits, SkipSpaces, Value, DigitRun;
    var tail := core + Repeat(' ', post);
    ReadExact(core, post, base);
    assert IsDigit(tail[0], base);
    SkipRepeat(pre, tail);
  }

  lemma ReadBlank(n: nat, base: nat)
    ensures ReadNumber(Repeat(' ', n), base) == None
  {
    hide ReadDigits, SkipSpaces;
    SkipRepeat(n, []);
    assert Repeat(' ', n) + [] == Repeat(' ', n);
  }

  /** The sign is written: zeros leave room for it in the scratch buffer. */
  predicate SignFits(prec: nat, width: nat, flags: Flags) {
    flags.left || (prec < NTOA_BUFFER && (!flags.zeropad || width <= NTOA_BUFFER))
  }

  /** The field shows a digit: the value is not zero, or no precision was given, or zeros are due. */
  predicate ShowsDigit(value: nat, negative: bool, prec: nat, width: nat, flags: Flags) {
    || value > 0 || !flags.precision
    || (!flags.left && (prec > 0 || (flags.zeropad && ZeroWidth(negative, width, flags) > 0)))
  }

  /** Number rendering, for any 64-bit magnitude in base 8, 10 or 16, any width, any precision and
      any flags but `#`: the field reads back as the signed value if and only if it shows a digit
      and the value is not negative or its sign fits; without a digit it is no number. */
  lemma FieldReadsBack(value: nat, negative: bool, base: nat, prec: nat, width: nat, flags: Flags)
    requires (base == 8 || base == 10 || base == 16) && value < TWO_64 && !flags.hash
    ensures var field := Ntoa(value, negative, base, prec, width, flags);
      && (ReadNumber(field, base).None? <==> !ShowsDigit(value, negative, prec, width, flags))
      && (ReadNumber(field, base) == Some(SignedValue(negative, value))
          <==> && ShowsDigit(value, negative, prec, width, flags)
               && (!negative || value == 0 || SignFits(prec, width, flags)))
      && |field| == FieldLength(|NtoaDigits(value, base, flags)|, negative, prec, width, flags)
  {
    hide ReadNumber, Ntoa, Value, Repeat, Reverse, FieldLength, NtoaDigits, PaddedLength;
    var pre, zeros, post := FieldShape(value, negative, base, prec, width, flags);
    Digits64(value, base, flags);
    DigitsCanonical(value, base, flags);
    var digits := NtoaDigits(value, base, flags);
    var sign := ShownSign(|digits|, negative, prec, width, flags);
    CoreIsDigits(digits, zeros, base);
    LeadingZeros(zeros, Reverse(digits), base);
    ReadField(pre, sign, Repeat('0', zeros) + Reverse(digits), post, base);
    SignShown(|digits|, negative, prec, width, flags);
    ZerosShown(negative, prec, width, flags);
  }

  lemma ZerosShown(negative: bool, prec: nat, width: nat, flags: Flags)
    ensures PaddedLength(0, negative, prec, width, flags) > 0
       <==> !flags.left && (prec > 0 || (flags.zeropad && ZeroWidth(negative, width, flags) > 0))
  {
  }

  /** In base 2, which has no negative values, a field that shows a digit reads back as the low
      32 bits. */
  lemma BinaryReadsBack(value: nat, prec: nat, width: nat, flags: Flags)
    requires !flags.hash
    ensures var field := Ntoa(value, false, 2, prec, width, flags);
      && ReadNumber(field, 2) == (if ShowsDigit(value, false, prec, width, flags) then Some(value % TWO_32) else None)
      && |field| == FieldLength(|NtoaDigits(value, 2, flags)|, false, prec, width, flags)
  {
    hide ReadNumber, Ntoa, Value, Repeat, Reverse, FieldLength, Pow, PaddedLength;
    var pre, zeros, post := FieldShape(value, false, 2, prec, width, flags);
    BinaryPlaces();
    DigitsModulo(value, 2, flags);
    ZerosShown(false, prec, width, flags);
    var digits := NtoaDigits(value, 2, flags);
    CoreIsDigits(digits, zeros, 2);
    LeadingZeros(zeros, Reverse(digits), 2);
    ReadField(pre, ShownSign(|digits|, false, prec, width, flags), Repeat('0', zeros) + Reverse(digits), post, 2);
  }

  lemma SignShown(digits: nat, negative: bool, prec: nat, width: nat, flags: Flags)
    requires digits <= 22
    ensures ShownSign(digits, negative, prec, width, flags) == "-" <==> negative && SignFits(prec, width, flags)
  {
  }

  lemma CoreIsDigits(digits: string, zeros: nat, base: nat)
    requires IsBase(base) && AllDigits(digits, base)
    ensures AllDigits(Repeat('0', zeros) + Reverse(digits), base)
  {
  }

  // ---------------------------------------------------------------- _atoi

  /** `_atoi` from position `pos` with the value so far: 32-bit unsigned arithmetic. */
  function AtoiFrom(s: string, pos: nat, acc: nat): (nat, nat)
    requires pos <= |s|
    decreases |s| - pos
  {
    if pos < |s| && IsDigit(s[pos], 10) then AtoiFrom(s, pos + 1, (acc * 10 + DigitOf(s[pos])) % TWO_32)
    else (acc, pos)
  }

  /** `_atoi` over any digits, of which `k` are done, accumulates their value modulo 2^32 and stops
      after them. */
  lemma {:induction false} AtoiReads(s: string, start: nat, d: string, k: nat)
    requires start + |d| <= |s| && s[start..start + |d|] == d && AllDigits(d, 10) && k <= |d|
    requires start + |d| == |s| || !IsDigit(s[start + |d|], 10)
    ensures AtoiFrom(s, start + k, Value(d[..k], 10) % 0x1_0000_0000) == (Value(d, 10) % 0x1_0000_0000, start + |d|)
    decreases |d| - k
  {
    if k < |d| {
      ValueStep(d, k);
      WrapStep(Value(d[..k], 10), DigitOf(d[k]));
      hide Value;
      assert s[start + k] == d[k];
      AtoiReads(s, start, d, k + 1);
    } else {
      assert d[..k] == d;
    }
  }

  lemma ValueStep(d: string, k: nat)
    requires k < |d|
    ensures Value(d[..k + 1], 10) == Value(d[..k], 10) * 10 + DigitOf(d[k])
  {
    assert d[..k + 1][..k] == d[..k];
  }

  /** Wrapping around at every digit is wrapping around once. */
  lemma WrapStep(v: nat, c: nat)
    ensures (v % TWO_32 * 10 + c) % TWO_32 == (v * 10 + c) % TWO_32
  {
  }

  lemma AtoiText(text: string, before: string, after: string)
    requires AllDigits(text, 10) && after != [] && !IsDigit(after[0], 10)
    ensures AtoiFrom(before + text + after, |before|, 0) == (Value(text, 10) % 0x1_0000_0000, |before| + |text|)
  {
    var s := before + text + after;
    assert s[|before|..|before| + |text|] == text;
    assert s[|before| + |text|] == after[0];
    assert text[..0] == [] && Value([], 10) == 0;
    AtoiReads(s, |before|, text, 0);
  }

  /** The field of an unsigned value in plain decimal. */
  function UnsignedText(v: nat): string {
    Ntoa(v, false, 10, 0, 0, NO_FLAGS)
  }

  lemma PlainText(v: nat)
    requires v < TWO_64
    ensures AllDigits(UnsignedText(v), 10) && Value(UnsignedText(v), 10) == v
  {
    PlainField(v, 10, NO_FLAGS);
    Digits64(v, 10, NO_FLAGS);
    hide NtoaDigits;
    CoreIsDigits(NtoaDigits(v, 10, NO_FLAGS), 0, 10);
    assert Repeat('0', 0) + Reverse(NtoaDigits(v, 10, NO_FLAGS)) == Reverse(NtoaDigits(v, 10, NO_FLAGS));
  }

  lemma PlainField(v: nat, base: nat, flags: Flags)
    requires IsBase(base) && flags == NO_FLAGS
    ensures Ntoa(v, false, base, 0, 0, flags) == Reverse(NtoaDigits(v, base, flags))
  {
    hide NtoaDigits;
    NtoaPlain(v, false, base, 0, 0, flags);
    var d := NtoaDigits(v, base, flags);
    assert WithZeros(d, 0, 0, flags) == d;
    assert OutRev(d, 0, flags) == Reverse(d);
  }
}
