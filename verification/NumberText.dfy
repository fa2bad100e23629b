/** How the formatter writes an integer: the digits, the padding and the sign, as text. */
module NumberText {

  /** `PRINTF_NTOA_BUFFER_SIZE`. */
  const NTOA_BUFFER := 32

  datatype Flags = Flags(
    zeropad: bool, left: bool, plus: bool, space: bool, hash: bool, uppercase: bool,
    chr: bool, short: bool, long: bool, longLong: bool, precision: bool)

  const NO_FLAGS := Flags(false, false, false, false, false, false, false, false, false, false, false)

  function Repeat(c: char, n: int): (s: string)
    ensures |s| == (if n < 0 then 0 else n)
    ensures forall i :: 0 <= i < |s| ==> s[i] == c
  {
    if n <= 0 then [] else seq(n, _ => c)
  }

  function Reverse(s: string): (r: string)
    ensures |r| == |s|
    ensures forall i :: 0 <= i < |s| ==> r[i] == s[|s| - 1 - i]
  {
    seq(|s|, i requires 0 <= i < |s| => s[|s| - 1 - i])
  }

  // ---------------------------------------------------------------- digits

  function DigitChar(d: nat, uppercase: bool): (c: char)
    requires d < 16
    ensures c == if uppercase then "0123456789ABCDEF"[d] else "0123456789abcdef"[d]
  {
    if d < 10 then '0' + d as char
    else if uppercase then 'A' + (d - 10) as char
    else 'a' + (d - 10) as char
  }

  predicate IsBase(base: nat) {
    base == 2 || base == 8 || base == 10 || base == 16
  }

  /** The do-while loop of `_ntoa_long`: at most `n` digits, least significant first. */
  function Digits(value: nat, base: nat, uppercase: bool, n: nat): (s: string)
    requires IsBase(base) && n > 0
    ensures 1 <= |s| <= n
    decreases n
  {
    [DigitChar(value % base, uppercase)] +
    if value / base != 0 && n > 1 then Digits(value / base, base, uppercase, n - 1) else []
  }

  /** The digits collected for a value; an explicit precision suppresses a zero. */
  function NtoaDigits(value: nat, base: nat, flags: Flags): (s: string)
    requires IsBase(base)
    ensures |s| <= NTOA_BUFFER
  {
    if !flags.precision || value != 0 then Digits(value, base, flags.uppercase, NTOA_BUFFER) else []
  }

  // ---------------------------------------------------------------- padding and sign, on the reversed text

  function ZerosTo(buf: string, n: nat): (s: string)
    ensures |s| == if |buf| < n && |buf| < NTOA_BUFFER then (if n < NTOA_BUFFER then n else NTOA_BUFFER) else |buf|
  {
    buf + Repeat('0', (if n < NTOA_BUFFER then n else NTOA_BUFFER) - |buf|)
  }

  predicate Signed(negative: bool, flags: Flags) {
    negative || flags.plus || flags.space
  }

  /** The width that zero padding has to reach, leaving room for the sign. */
  function ZeroWidth(negative: bool, width: nat, flags: Flags): nat {
    if !flags.left && width > 0 && flags.zeropad && Signed(negative, flags) then width - 1 else width
  }

  function WithZeros(buf: string, prec: nat, width: nat, flags: Flags): string {
    if flags.left then buf
    else
      var b := ZerosTo(buf, prec);
      if flags.zeropad then ZerosTo(b, width) else b
  }

  /** Append a character if the scratch buffer has room. */
  function Push(buf: string, c: char): string {
    if |buf| < NTOA_BUFFER then buf + [c] else buf
  }

  function WithHash(buf: string, base: nat, prec: nat, width: nat, flags: Flags): string {
    if !flags.hash then buf
    else
      var b :=
        if !flags.precision && buf != [] && (|buf| == prec || |buf| == width) then
          if |buf| > 1 && base == 16 then buf[..|buf| - 2] else buf[..|buf| - 1]
        else buf;
      var b :=
        if base == 16 then Push(b, if flags.uppercase then 'X' else 'x')
        else if base == 2 then Push(b, 'b')
        else b;
      Push(b, '0')
  }

  function WithSign(buf: string, negative: bool, flags: Flags): string {
    if negative then Push(buf, '-')
    else if flags.plus then Push(buf, '+')
    else if flags.space then Push(buf, ' ')
    else buf
  }

  /** `_out_rev`: the reversed buffer, padded with spaces to the width. */
  function OutRev(buf: string, width: nat, flags: Flags): string {
    (if !flags.left && !flags.zeropad then Repeat(' ', width - |buf|) else []) +
    Reverse(buf) +
    (if flags.left then Repeat(' ', width - |buf|) else [])
  }

  /** The reversed text of a number, before padding with spaces. */
  function NtoaText(value: nat, negative: bool, base: nat, prec: nat, width: nat, flags: Flags): string
    requires IsBase(base)
  {
    var flags := if value == 0 then flags.(hash := false) else flags;
    var w := ZeroWidth(negative, width, flags);
    WithSign(WithHash(WithZeros(NtoaDigits(value, base, flags), prec, w, flags), base, prec, w, flags),
             negative, flags)
  }

  /** `_ntoa_long` and `_ntoa_long_long`: the whole field. */
  function Ntoa(value: nat, negative: bool, base: nat, prec: nat, width: nat, flags: Flags): string
    requires IsBase(base)
  {
    OutRev(NtoaText(value, negative, base, prec, width, flags), ZeroWidth(negative, width, flags), flags)
  }

  // ---------------------------------------------------------------- reading digits back

  predicate IsDigit(c: char, base: nat) {
    || ('0' <= c <= '9' && c as int - '0' as int < base)
    || (base == 16 && ('a' <= c <= 'f' || 'A' <= c <= 'F'))
  }

  function DigitOf(c: char): nat {
    if '0' <= c <= '9' then c as int - '0' as int
    else if 'a' <= c <= 'f' then c as int - 'a' as int + 10
    else if 'A' <= c <= 'F' then c as int - 'A' as int + 10
    else 0
  }

  /** Value of a digit text, most significant digit first. */
  function Value(s: string, base: nat): nat {
    if s == [] then 0 else Value(s[..|s| - 1], base) * base + DigitOf(s[|s| - 1])
  }

  function Pow(b: nat, n: nat): nat {
    if n == 0 then 1 else b * Pow(b, n - 1)
  }

  /** Splitting off the lowest place of a number. */
  lemma SplitPlace(value: nat, base: nat, k: nat, p: nat, v: nat)
    requires IsBase(base) && value / base == k * p + v && v < p
    ensures value == k * (base * p) + (v * base + value % base)
    ensures v * base + value % base < base * p
  {
    if base == 2 {
    } else if base == 8 {
    } else if base == 10 {
    } else {
      assert base == 16;
    }
  }

  lemma DigitCharReads(d: nat, base: nat, uppercase: bool)
    requires IsBase(base) && d < base
    ensures IsDigit(DigitChar(d, uppercase), base) && DigitOf(DigitChar(d, uppercase)) == d
  {
  }

  lemma ReverseCons(c: char, s: string)
    ensures Reverse([c] + s) == Reverse(s) + [c]
  {
  }

  ghost predicate AllDigits(s: string, base: nat) {
    forall i :: 0 <= i < |s| ==> IsDigit(s[i], base)
  }

  /** Letters among the digits have the case asked for. */
  ghost predicate InCase(s: string, uppercase: bool) {
    forall i :: 0 <= i < |s| ==> if uppercase then !('a' <= s[i] <= 'f') else !('A' <= s[i] <= 'F')
  }

  lemma {:induction false} DigitsInCase(value: nat, base: nat, uppercase: bool, n: nat)
    requires IsBase(base) && n > 0
    ensures InCase(Digits(value, base, uppercase, n), uppercase)
    decreases n
  {
    if value / base != 0 && n > 1 {
      DigitsInCase(value / base, base, uppercase, n - 1);
    }
  }

  /** The collected digits read back as the value modulo `base` to the number of places:
      value and reading differ by a multiple of that power, and the reading is below it. */
  lemma {:induction false} DigitsRead(value: nat, base: nat, uppercase: bool, n: nat) returns (k: nat)
    requires IsBase(base) && n > 0
    ensures AllDigits(Digits(value, base, uppercase, n), base)
    ensures var v := Value(Reverse(Digits(value, base, uppercase, n)), base);
      value == k * Pow(base, n) + v && v < Pow(base, n)
    decreases n
  {
    var c := DigitChar(value % base, uppercase);
    var rest := if value / base != 0 && n > 1 then Digits(value / base, base, uppercase, n - 1) else [];
    assert Digits(value, base, uppercase, n) == [c] + rest;
    ReadCons(value % base, rest, base, uppercase);
    assert Pow(base, n) == base * Pow(base, n - 1);
    hide Digits, DigitChar, Value, Reverse, Pow;
    if value / base != 0 && n > 1 {
      k := DigitsRead(value / base, base, uppercase, n - 1);
      SplitPlace(value, base, k, Pow(base, n - 1), Value(Reverse(rest), base));
    } else {
      EmptyReads(base);
      PowPositive(base, n - 1);
      k := if n == 1 then value / base else 0;
      assert value / base == k * Pow(base, n - 1) + 0;
      SplitPlace(value, base, k, Pow(base, n - 1), 0);
    }
  }

  lemma EmptyReads(base: nat)
    ensures Value(Reverse([]), base) == 0 && Pow(base, 0) == 1
  {
  }

  /** Reading a digit text with one more lowest digit. */
  lemma ReadCons(d: nat, rest: string, base: nat, uppercase: bool)
    requires IsBase(base) && d < base
    ensures var c := DigitChar(d, uppercase);
      && (AllDigits(rest, base) ==> AllDigits([c] + rest, base))
      && Value(Reverse([c] + rest), base) == Value(Reverse(rest), base) * base + d
  {
    var c := DigitChar(d, uppercase);
    DigitCharReads(d, base, uppercase);
    ReverseCons(c, rest);
    var r := Reverse(rest) + [c];
    assert r[..|r| - 1] == Reverse(rest);
  }

  lemma {:induction false} PowPositive(base: nat, n: nat)
    requires IsBase(base)
    ensures Pow(base, n) >= 1
  {
    if n > 0 {
      PowPositive(base, n - 1);
    }
  }

  // ---------------------------------------------------------------- 64-bit values

  const TWO_64 := 0x1_0000_0000_0000_0000

  lemma {:induction false} PowMonotone(base: nat, n: nat)
    requires base == 8 || base == 10 || base == 16
    ensures 1 <= Pow(8, n) <= Pow(base, n)
  {
    if n > 0 {
      PowMonotone(base, n - 1);
    }
  }

  lemma {:induction false} PowGrows(base: nat, m: nat, n: nat)
    requires IsBase(base) && m <= n
    ensures Pow(base, m) <= Pow(base, n)
    decreases n
  {
    if m < n {
      PowGrows(base, m, n - 1);
      PowPositive(base, n - 1);
    }
  }

  /** 22 octal places hold any 64-bit value. */
  lemma Places64(base: nat)
    requires base == 8 || base == 10 || base == 16
    ensures TWO_64 <= Pow(base, 22) <= Pow(base, NTOA_BUFFER)
  {
    assert Pow(8, 11) == 0x2_0000_0000;
    assert Pow(8, 22) == 0x4_0000_0000_0000_0000;
    PowMonotone(base, 22);
    PowGrows(base, 22, NTOA_BUFFER);
  }

  lemma DivBelow(value: nat, base: nat, p: nat)
    requires IsBase(base) && value < base * p
    ensures value / base < p
  {
    if base == 2 {
    } else if base == 8 {
    } else if base == 10 {
    } else {
      assert base == 16;
    }
  }

  lemma {:induction false} DigitsLength(value: nat, base: nat, uppercase: bool, n: nat, k: nat)
    requires IsBase(base) && 1 <= k <= n && value < Pow(base, k)
    ensures |Digits(value, base, uppercase, n)| <= k
    decreases n
  {
    if k == 1 {
      assert Pow(base, 1) == base * Pow(base, 0);
    } else {
      DivBelow(value, base, Pow(base, k - 1));
      hide Pow;
      if n > 1 {
        DigitsLength(value / base, base, uppercase, n - 1, k - 1);
      }
    }
  }

  /** The digits of a 64-bit value are at most 22 and read back as the value. */
  lemma Digits64(value: nat, base: nat, flags: Flags)
    requires (base == 8 || base == 10 || base == 16) && value < TWO_64
    ensures |NtoaDigits(value, base, flags)| <= 22 && AllDigits(NtoaDigits(value, base, flags), base)
    ensures Value(Reverse(NtoaDigits(value, base, flags)), base) == value
  {
    Places64(base);
    hide Pow;
    DigitsLength(value, base, flags.uppercase, NTOA_BUFFER, 22);
    var k := DigitsRead(value, base, flags.uppercase, NTOA_BUFFER);
    var digits := Digits(value, base, flags.uppercase, NTOA_BUFFER);
    OnlyZeroFits(value, k, Pow(base, NTOA_BUFFER), Value(Reverse(digits), base));
    EmptyReads(base);
  }

  const TWO_32 := 0x1_0000_0000

  /** The digits of any value read back as the value modulo `base` to the size of the scratch
      buffer; in base 2, where that matters, as the low 32 bits. */
  lemma DigitsModulo(value: nat, base: nat, flags: Flags)
    requires IsBase(base)
    ensures AllDigits(NtoaDigits(value, base, flags), base)
    ensures Pow(base, NTOA_BUFFER) > 0
    ensures Value(Reverse(NtoaDigits(value, base, flags)), base) == value % Pow(base, NTOA_BUFFER)
  {
    hide Pow, Value, Digits;
    PowPositive(base, NTOA_BUFFER);
    var k := DigitsRead(value, base, flags.uppercase, NTOA_BUFFER);
    var v := Value(Reverse(Digits(value, base, flags.uppercase, NTOA_BUFFER)), base);
    OnlyRemainder(value, k, Pow(base, NTOA_BUFFER), v);
    EmptyReads(base);
  }

  lemma OnlyRemainder(value: int, k: int, p: nat, v: nat)
    requires value == k * p + v && v < p
    ensures v == value % p && k == value / p
  {
    var q := value / p;
    assert q * p + value % p == value;
    assert q > k ==> q * p >= (k + 1) * p;
    assert q < k ==> k * p >= (q + 1) * p;
  }

  lemma BinaryPlaces()
    ensures Pow(2, NTOA_BUFFER) == TWO_32
  {
    assert Pow(2, 8) == 0x100;
    assert Pow(2, 16) == 0x1_0000;
    assert Pow(2, 24) == 0x100_0000;
  }

  /** Nothing is collected for a zero with an explicit precision, `0` for any other zero, and for a
      positive 64-bit value in base 8, 10 or 16 digits, in the case asked for, of which the first
      is not zero. */
  lemma DigitsCanonical(value: nat, base: nat, flags: Flags)
    requires (base == 8 || base == 10 || base == 16) && value < TWO_64
    ensures var d := NtoaDigits(value, base, flags);
      && (value == 0 ==> d == if flags.precision then "" else "0")
      && (value > 0 ==> d != [] && d[|d| - 1] != '0')
      && InCase(d, flags.uppercase)
  {
    DigitsInCase(value, base, flags.uppercase, NTOA_BUFFER);
    if value > 0 {
      NonZeroDigits(value, base, flags);
    }
  }

  /** `d` is the numeral of `n`: its digits, most significant first, without a leading zero. */
  ghost predicate IsNumeral(d: string, base: nat, uppercase: bool, n: nat) {
    && d != [] && AllDigits(d, base) && InCase(d, uppercase) && Value(d, base) == n
    && (|d| > 1 ==> d[0] != '0')
  }

  lemma DigitOfInjective(a: char, b: char, base: nat, uppercase: bool)
    requires IsBase(base) && IsDigit(a, base) && IsDigit(b, base) && DigitOf(a) == DigitOf(b)
    requires InCase([a], uppercase) && InCase([b], uppercase)
    ensures a == b
  {
    assert [a][0] == a && [b][0] == b;
  }

  /** A numeral of more than one digit, without its last digit, is a numeral again. */
  lemma NumeralPrefix(d: string, base: nat, uppercase: bool, n: nat)
    requires IsBase(base) && IsNumeral(d, base, uppercase, n)
    ensures DigitOf(d[|d| - 1]) == n % base && InCase([d[|d| - 1]], uppercase)
    ensures if |d| > 1 then IsNumeral(d[..|d| - 1], base, uppercase, n / base) else n / base == 0
  {
    var p, c := d[..|d| - 1], d[|d| - 1];
    assert IsDigit(c, base);
    OnlyRemainder(n, Value(p, base), base, DigitOf(c));
  }

  lemma {:induction false} NumeralPositive(d: string, base: nat, uppercase: bool, n: nat)
    requires IsBase(base) && IsNumeral(d, base, uppercase, n) && d[0] != '0'
    ensures n > 0
    decreases |d|
  {
    NumeralPrefix(d, base, uppercase, n);
    if |d| > 1 {
      NumeralPositive(d[..|d| - 1], base, uppercase, n / base);
    } else {
      assert IsDigit(d[0], base);
    }
  }

  /** A value has one numeral. */
  lemma {:induction false} NumeralUnique(d: string, e: string, base: nat, uppercase: bool, n: nat)
    requires IsBase(base) && IsNumeral(d, base, uppercase, n) && IsNumeral(e, base, uppercase, n)
    ensures d == e
    decreases |d|
  {
    var d', e' := d[..|d| - 1], e[..|e| - 1];
    NumeralPrefix(d, base, uppercase, n);
    NumeralPrefix(e, base, uppercase, n);
    assert d == d' + [d[|d| - 1]] && e == e' + [e[|e| - 1]];
    DigitOfInjective(d[|d| - 1], e[|e| - 1], base, uppercase);
    hide IsNumeral;
    if |d| > 1 && |e| > 1 {
      NumeralUnique(d', e', base, uppercase, n / base);
    } else if |d| > 1 {
      LeadingPositive(d, base, uppercase, n);
    } else if |e| > 1 {
      LeadingPositive(e, base, uppercase, n);
    }
  }

  lemma LeadingPositive(d: string, base: nat, uppercase: bool, n: nat)
    requires IsBase(base) && IsNumeral(d, base, uppercase, n) && |d| > 1
    ensures n / base > 0
  {
    NumeralPrefix(d, base, uppercase, n);
    NumeralPositive(d[..|d| - 1], base, uppercase, n / base);
  }

  /** Unless a zero is suppressed, the collected digits are the numeral of the value. */
  lemma DigitsAreNumeral(value: nat, base: nat, flags: Flags)
    requires IsBase(base) && value < if base == 2 then TWO_32 else TWO_64
    requires value > 0 || !flags.precision
    ensures IsNumeral(Reverse(NtoaDigits(value, base, flags)), base, flags.uppercase, value)
  {
    hide Value, Digits, Pow;
    var d := NtoaDigits(value, base, flags);
    DigitsInCase(value, base, flags.uppercase, NTOA_BUFFER);
    if base == 2 {
      BinaryPlaces();
    } else {
      Places64(base);
    }
    DigitsModulo(value, base, flags);
    OnlyRemainder(value, 0, Pow(base, NTOA_BUFFER), value);
    if value > 0 {
      TopDigit(value, base, flags.uppercase, NTOA_BUFFER);
    } else {
      ZeroDigits(base, flags);
    }
  }

  lemma ZeroDigits(base: nat, flags: Flags)
    requires IsBase(base) && !flags.precision
    ensures NtoaDigits(0, base, flags) == "0"
  {
  }

  lemma OnlyZeroFits(value: nat, k: nat, p: nat, v: nat)
    requires value == k * p + v && value < p
    ensures value == v
  {
    assert k >= 1 ==> k * p >= p;
  }

  // ---------------------------------------------------------------- the shape of a field

  function SignText(negative: bool, flags: Flags): string {
    if negative then "-" else if flags.plus then "+" else if flags.space then " " else ""
  }

  function Max(a: int, b: int): int {
    if a < b then b else a
  }

  function Min(a: nat, b: nat): nat {
    if a < b then a else b
  }

  /** The number of digits and padding zeros, for `digits` digits: zeros fill up to the precision
      and, with the `0` flag, to the width less the sign, but not beyond the scratch buffer. */
  function PaddedLength(digits: nat, negative: bool, prec: nat, width: nat, flags: Flags): nat {
    if flags.left then digits
    else
      Max(Max(digits, Min(prec, NTOA_BUFFER)),
          if flags.zeropad then Min(ZeroWidth(negative, width, flags), NTOA_BUFFER) else 0)
  }

  lemma ZerosShape(d: string, negative: bool, prec: nat, width: nat, flags: Flags) returns (zeros: nat)
    requires |d| <= NTOA_BUFFER
    ensures zeros == PaddedLength(|d|, negative, prec, width, flags) - |d| && |d| + zeros <= NTOA_BUFFER
    ensures WithZeros(d, prec, ZeroWidth(negative, width, flags), flags) == d + Repeat('0', zeros)
  {
    zeros := PaddedLength(|d|, negative, prec, width, flags) - |d|;
  }

  /** The sign is written exactly when there is none to write or the scratch buffer has room. */
  lemma SignShape(z: string, negative: bool, flags: Flags)
    ensures WithSign(z, negative, flags) == if |z| < NTOA_BUFFER then z + SignText(negative, flags) else z
  {
  }

  lemma ReverseShape(d: string, zeros: nat, sign: string)
    requires |sign| <= 1
    ensures Reverse(d + Repeat('0', zeros) + sign) == sign + (Repeat('0', zeros) + Reverse(d))
  {
  }

  /** The sign that a field shows: it is dropped when digits and zeros fill the scratch buffer. */
  function ShownSign(digits: nat, negative: bool, prec: nat, width: nat, flags: Flags): (sign: string)
    ensures |sign| <= 1
  {
    if PaddedLength(digits, negative, prec, width, flags) < NTOA_BUFFER then SignText(negative, flags) else ""
  }

  /** The length of a field with `digits` digits: digits, zeros and sign, or the width, whichever
      is more; with the `0` flag no spaces follow the zeros up to the width. */
  function FieldLength(digits: nat, negative: bool, prec: nat, width: nat, flags: Flags): nat {
    Max(PaddedLength(digits, negative, prec, width, flags) + |ShownSign(digits, negative, prec, width, flags)|,
        if flags.zeropad && !flags.left then 0 else width)
  }

  /** Without `#` a field is spaces, the sign, zeros, the digits and spaces, for any width and
      precision. Spaces fill the field up to the width, after the text if it is left-justified,
      else before it unless zeros do. */
  lemma FieldShape(value: nat, negative: bool, base: nat, prec: nat, width: nat, flags: Flags)
    returns (pre: nat, zeros: nat, post: nat)
    requires IsBase(base) && !flags.hash
    ensures var d := NtoaDigits(value, base, flags);
      var field := Ntoa(value, negative, base, prec, width, flags);
      var room := Max(0, width - |d| - zeros - |ShownSign(|d|, negative, prec, width, flags)|);
      && field == Repeat(' ', pre)
                  + (ShownSign(|d|, negative, prec, width, flags) + (Repeat('0', zeros) + Reverse(d)))
                  + Repeat(' ', post)
      && |d| + zeros == PaddedLength(|d|, negative, prec, width, flags)
      && pre == (if flags.left || flags.zeropad then 0 else room)
      && post == (if flags.left then room else 0)
      && |field| == FieldLength(|d|, negative, prec, width, flags)
  {
    hide WithZeros, WithSign, NtoaDigits, Reverse, OutRev, Repeat, Ntoa, PaddedLength;
    var d := NtoaDigits(value, base, flags);
    var w := ZeroWidth(negative, width, flags);
    zeros := ZerosShape(d, negative, prec, width, flags);
    var z := WithZeros(d, prec, w, flags);
    SignShape(z, negative, flags);
    var t := WithSign(z, negative, flags);
    NtoaPlain(value, negative, base, prec, width, flags);
    var sign := ShownSign(|d|, negative, prec, width, flags);
    ReverseShape(d, zeros, sign);
    assert t == z + sign;
    pre, post := OutRevShape(t, w, flags);
  }

  lemma NtoaPlain(value: nat, negative: bool, base: nat, prec: nat, width: nat, flags: Flags)
    requires IsBase(base) && !flags.hash
    ensures var w := ZeroWidth(negative, width, flags);
      Ntoa(value, negative, base, prec, width, flags)
      == OutRev(WithSign(WithZeros(NtoaDigits(value, base, flags), prec, w, flags), negative, flags), w, flags)
  {
    assert flags.(hash := false) == flags;
  }

  lemma OutRevShape(t: string, w: nat, flags: Flags) returns (pre: nat, post: nat)
    ensures OutRev(t, w, flags) == Repeat(' ', pre) + Reverse(t) + Repeat(' ', post)
    ensures pre == (if flags.left || flags.zeropad then 0 else Max(0, w - |t|))
    ensures post == (if flags.left then Max(0, w - |t|) else 0)
    ensures |OutRev(t, w, flags)| == if flags.zeropad && !flags.left then |t| else Max(w, |t|)
  {
    pre := if !flags.left && !flags.zeropad then Max(0, w - |t|) else 0;
    post := if flags.left then Max(0, w - |t|) else 0;
    assert Repeat(' ', w - |t|) == Repeat(' ', Max(0, w - |t|));
  }

  // ---------------------------------------------------------------- the `#` flag

  /** The guard of the branch that makes room for a `#` prefix by taking characters back. */
  predicate TakesBack(buf: string, prec: nat, width: nat, flags: Flags) {
    !flags.precision && buf != [] && (|buf| == prec || |buf| == width)
  }

  /** The `#` stage on digits followed by zeros: it never shortens the text below the digits, it
      does not leave it empty or starting in a blank, and the digits survive exactly when no
      characters are taken back, or those taken back are all padding zeros. */
  lemma HashStage(d: string, zeros: nat, base: nat, prec: nat, width: nat, flags: Flags)
    requires (base == 2 || base == 8 || base == 16) && flags.hash
    requires d != [] && AllDigits(d, base) && (base == 8 ==> d[|d| - 1] != '0') && |d| + zeros <= NTOA_BUFFER
    ensures var buf := d + Repeat('0', zeros);
      var r := WithHash(buf, base, prec, width, flags);
      && |r| >= |d| && r[0] != ' '
      && (d <= r <==> !TakesBack(buf, prec, width, flags) || zeros >= (if base == 16 && |buf| > 1 then 2 else 1))
  {
    var buf := d + Repeat('0', zeros);
    var r := WithHash(buf, base, prec, width, flags);
    if TakesBack(buf, prec, width, flags) {
      var n := |buf| - if base == 16 && |buf| > 1 then 2 else 1;
      var mark := if base == 16 then (if flags.uppercase then 'X' else 'x') else if base == 2 then 'b' else '0';
      assert |r| > n && r[..n] == buf[..n] && r[n] == mark;
      if n >= |d| {
        assert d <= buf[..n];
      } else {
        assert r[n] != d[n];
      }
    } else {
      assert buf <= r;
    }
  }

  /** The most significant digit collected is not zero, unless digits were cut off. */
  lemma {:induction false} TopDigit(value: nat, base: nat, uppercase: bool, n: nat)
    requires IsBase(base) && n > 0 && 0 < value < Pow(base, n)
    ensures var d := Digits(value, base, uppercase, n); d[|d| - 1] != '0'
    decreases n
  {
    DivBelow(value, base, Pow(base, n - 1));
    if value / base != 0 {
      TopDigit(value / base, base, uppercase, n - 1);
    }
  }

  /** The field without the blanks at its end. */
  function TrimRight(s: string): string {
    if s != [] && s[|s| - 1] == ' ' then TrimRight(s[..|s| - 1]) else s
  }

  lemma {:induction false} TrimRepeat(s: string, n: nat)
    requires s != [] && s[|s| - 1] != ' '
    ensures TrimRight(s + Repeat(' ', n)) == s
  {
    var all := s + Repeat(' ', n);
    if n == 0 {
      assert all == s;
    } else {
      assert all[..|all| - 1] == s + Repeat(' ', n - 1);
      TrimRepeat(s, n - 1);
    }
  }

  predicate EndsWith(s: string, x: string) {
    |x| <= |s| && s[|s| - |x|..] == x
  }

  lemma PrefixIsSuffix(d: string, t: string, pre: nat)
    requires |d| <= |t|
    ensures EndsWith(Repeat(' ', pre) + Reverse(t), Reverse(d)) <==> d <= t
  {
    var s := Repeat(' ', pre) + Reverse(t);
    var tail := s[|s| - |d|..];
    assert forall i :: 0 <= i < |d| ==> tail[i] == t[|d| - 1 - i];
    if tail == Reverse(d) {
      forall i | 0 <= i < |d| ensures t[i] == d[i] {
        assert tail[|d| - 1 - i] == t[i];
      }
    }
  }

  lemma SignKeepsPrefix(d: string, r: string, negative: bool, flags: Flags)
    requires d != [] && |d| <= |r| && r[0] != ' '
    ensures var t := WithSign(r, negative, flags); |d| <= |t| && t[0] != ' ' && (d <= t <==> d <= r)
  {
    var t := WithSign(r, negative, flags);
    assert r <= t;
    assert t[..|d|] == r[..|d|];
  }

  /** With `#` the printed field ends in all digits of the value if and only if no characters are
      taken back to make room for the prefix, or those taken back are all padding zeros. */
  lemma HashKeepsDigits(value: nat, negative: bool, base: nat, prec: nat, width: nat, flags: Flags)
    requires (base == 2 || base == 8 || base == 16) && flags.hash && 0 < value < TWO_64
    ensures var d := NtoaDigits(value, base, flags);
      var len := PaddedLength(|d|, negative, prec, width, flags);
      EndsWith(TrimRight(Ntoa(value, negative, base, prec, width, flags)), Reverse(d))
      <==> || flags.precision || (len != prec && len != ZeroWidth(negative, width, flags))
           || len - |d| >= (if base == 16 && len > 1 then 2 else 1)
  {
    hide Pow, NtoaDigits, WithZeros, WithHash, WithSign, OutRev, Reverse, Repeat, PaddedLength, Ntoa, AllDigits;
    var d := NtoaDigits(value, base, flags);
    NonZeroDigits(value, base, flags);
    var w := ZeroWidth(negative, width, flags);
    var zeros := ZerosShape(d, negative, prec, width, flags);
    HashStage(d, zeros, base, prec, w, flags);
    var r := WithHash(d + Repeat('0', zeros), base, prec, w, flags);
    SignKeepsPrefix(d, r, negative, flags);
    FieldEnds(d, WithSign(r, negative, flags), w, flags);
    NtoaHashed(value, negative, base, prec, width, flags);
  }

  lemma NonZeroDigits(value: nat, base: nat, flags: Flags)
    requires IsBase(base) && 0 < value < TWO_64
    ensures var d := NtoaDigits(value, base, flags);
      d != [] && AllDigits(d, base) && (base != 2 ==> d[|d| - 1] != '0')
  {
    hide Pow, Digits, Value;
    if base != 2 {
      Places64(base);
      TopDigit(value, base, flags.uppercase, NTOA_BUFFER);
    }
    var k := DigitsRead(value, base, flags.uppercase, NTOA_BUFFER);
  }

  lemma NtoaHashed(value: nat, negative: bool, base: nat, prec: nat, width: nat, flags: Flags)
    requires IsBase(base) && value > 0
    ensures var w := ZeroWidth(negative, width, flags);
      var z := WithZeros(NtoaDigits(value, base, flags), prec, w, flags);
      Ntoa(value, negative, base, prec, width, flags)
      == OutRev(WithSign(WithHash(z, base, prec, w, flags), negative, flags), w, flags)
  {
  }

  lemma FieldEnds(d: string, t: string, w: nat, flags: Flags)
    requires 0 < |d| <= |t| && t[0] != ' '
    ensures EndsWith(TrimRight(OutRev(t, w, flags)), Reverse(d)) <==> d <= t
  {
    var pre, post := OutRevShape(t, w, flags);
    var s := Repeat(' ', pre) + Reverse(t);
    TrimRepeat(s, post);
    PrefixIsSuffix(d, t, pre);
  }

  /** An example: `%#2x` of 0x12 prints no digit of the value. */
  lemma HashDropsDigits()
    ensures Ntoa(0x12, false, 16, 0, 2, NO_FLAGS.(hash := true)) == "0x"
  {
    var flags := NO_FLAGS.(hash := true);
    assert Digits(1, 16, false, NTOA_BUFFER - 1) == "1";
    assert NtoaDigits(0x12, 16, flags) == "21";
    assert NtoaText(0x12, false, 16, 0, 2, flags) == "x0";
    assert Reverse("x0") == "0x";
  }

  /** An example: `%.32d` of -1 prints 31 zeros and the digit, and no sign. */
  lemma SignIsLost()
    ensures Ntoa(1, true, 10, 32, 0, NO_FLAGS.(precision := true)) == Repeat('0', 31) + "1"
  {
    var flags := NO_FLAGS.(precision := true);
    assert Digits(1, 10, false, NTOA_BUFFER) == "1";
    assert NtoaDigits(1, 10, flags) == "1";
    hide NtoaDigits, Ntoa;
    var pre, zeros, post := FieldShape(1, true, 10, 32, 0, flags);
    assert Reverse("1") == "1";
  }
}
