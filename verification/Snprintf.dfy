/** The formatter as it runs: characters go to an output function that drops what does not fit,
    numbers are built backwards in a 32-character scratch buffer. */
module Snprintf {
  import opened NumberText
  import opened NumberReading
  import opened Format

  /** Writing the NUL leaves exactly the kept characters before it and the old buffer after it. */
  lemma Terminated(text: string, before: string, count: nat)
    requires 0 < count <= |before|
    ensures var m := Min(|text|, count);
      var k := Min(|text|, count - 1);
      (text[..m] + before[m..])[k := '\0'] == text[..k] + ['\0'] + before[k + 1..]
  {
  }

  /** `_out_buffer` with the running index. `text` is everything output so far, kept or dropped. */
  class Sink {
    const buffer: array<char>
    const maxlen: nat
    var idx: nat
    ghost var text: string
    ghost const before: string

    /** The buffer holds the text as far as it fits, and its old contents beyond. */
    ghost predicate Valid()
      reads this, buffer
    {
      && maxlen <= buffer.Length == |before| && idx == |text|
      && buffer[..] == text[..Min(idx, maxlen)] + before[Min(idx, maxlen)..]
    }

    constructor (buffer: array<char>, maxlen: nat)
      requires maxlen <= buffer.Length
      ensures Valid() && this.buffer == buffer && this.maxlen == maxlen
      ensures text == [] && before == old(buffer[..])
    {
      this.buffer, this.maxlen, idx := buffer, maxlen, 0;
      text, before := [], buffer[..];
    }

    /** `out(c, buffer, idx++, maxlen)`. */
    method Put(c: char)
      requires Valid()
      modifies this`idx, this`text, buffer
      ensures Valid() && text == old(text) + [c]
    {
      if idx < maxlen {
        buffer[idx] := c;
      }
      idx := idx + 1;
      text := text + [c];
    }

    /** `out(0, buffer, idx < maxlen ? idx : maxlen - 1, maxlen)`. */
    method Terminate()
      requires Valid()
      modifies buffer
      ensures maxlen == 0 ==> buffer[..] == before
      ensures maxlen > 0 ==>
        var k := Min(|text|, maxlen - 1);
        buffer[..] == text[..k] + ['\0'] + before[k + 1..]
    {
      var at := if idx < maxlen then idx else maxlen - 1;
      if 0 <= at < maxlen {
        Terminated(text, before, maxlen);
        ghost var b := buffer[..];
        buffer[at] := '\0';
        assert buffer[..] == b[at := '\0'];
      }
    }

    /** A loop that outputs a padding character `n` times. */
    method Pad(c: char, n: int)
      requires Valid()
      modifies this`idx, this`text, buffer
      ensures Valid() && text == old(text) + Repeat(c, n)
    {
      var i := 0;
      while i < n
        invariant i == 0 || 0 < i <= n
        invariant Valid() && text == old(text) + Repeat(c, i)
      {
        Put(c);
        i := i + 1;
        assert Repeat(c, i) == Repeat(c, i - 1) + [c];
      }
      assert Repeat(c, i) == Repeat(c, n);
    }

    /** Output a string. */
    method PutAll(s: string)
      requires Valid()
      modifies this`idx, this`text, buffer
      ensures Valid() && text == old(text) + s
    {
      for i := 0 to |s|
        invariant Valid() && text == old(text) + s[..i]
      {
        Put(s[i]);
      }
    }
  }

  // ---------------------------------------------------------------- numbers

  /** The loop of `_out_rev` that outputs the scratch buffer from its end. */
  method PutBackwards(sink: Sink, buf: array<char>, len: nat)
    requires sink.Valid() && buf != sink.buffer && len <= buf.Length
    modifies sink`idx, sink`text, sink.buffer
    ensures sink.Valid() && sink.text == old(sink.text) + Reverse(buf[..len])
  {
    ghost var b := buf[..len];
    var n := len;
    while n > 0
      invariant 0 <= n <= len && buf[..len] == b
      invariant sink.Valid() && sink.text == old(sink.text) + Reverse(b)[..len - n]
    {
      n := n - 1;
      sink.Put(buf[n]);
      assert buf[n] == b[n] == Reverse(b)[len - 1 - n];
    }
    assert Reverse(b)[..len] == Reverse(b);
  }

  /** `_out_rev`. */
  method PutReversed(sink: Sink, buf: array<char>, len: nat, width: nat, flags: Flags)
    requires sink.Valid() && buf != sink.buffer && len <= buf.Length
    modifies sink`idx, sink`text, sink.buffer
    ensures sink.Valid() && sink.text == old(sink.text) + OutRev(buf[..len], width, flags)
  {
    hide Reverse, Repeat;
    var start := sink.idx;
    if !flags.left && !flags.zeropad {
      sink.Pad(' ', width - len);
    }
    PutBackwards(sink, buf, len);
    if flags.left {
      sink.Pad(' ', width - (sink.idx - start));
    }
  }

  /** A loop that appends zeros to the scratch buffer. */
  method PushZeros(buf: array<char>, len: nat, n: nat) returns (len': nat)
    requires buf.Length == NTOA_BUFFER && len <= NTOA_BUFFER
    modifies buf
    ensures len' <= NTOA_BUFFER && buf[..len'] == ZerosTo(old(buf[..len]), n)
  {
    ghost var b := buf[..len];
    len' := len;
    while len' < n && len' < NTOA_BUFFER
      invariant len <= len' <= NTOA_BUFFER && (len' <= n || len' == len)
      invariant buf[..len'] == b + Repeat('0', len' - len)
    {
      buf[len'] := '0';
      len' := len' + 1;
      assert Repeat('0', len' - len) == Repeat('0', len' - 1 - len) + ['0'];
    }
  }

  /** Append a character if there is room. */
  method PushChar(buf: array<char>, len: nat, c: char) returns (len': nat)
    requires buf.Length == NTOA_BUFFER && len <= NTOA_BUFFER
    modifies buf
    ensures len' <= NTOA_BUFFER && buf[..len'] == Push(old(buf[..len]), c)
  {
    len' := len;
    if len < NTOA_BUFFER {
      buf[len] := c;
      len' := len + 1;
    }
  }

  /** The `#` part of `_ntoa_format`. */
  method PushHash(buf: array<char>, len: nat, base: nat, prec: nat, width: nat, flags: Flags) returns (len': nat)
    requires buf.Length == NTOA_BUFFER && len <= NTOA_BUFFER
    modifies buf
    ensures len' <= NTOA_BUFFER && buf[..len'] == WithHash(old(buf[..len]), base, prec, width, flags)
  {
    len' := len;
    if flags.hash {
      if !flags.precision && len' > 0 && (len' == prec || len' == width) {
        len' := len' - 1;
        if len' > 0 && base == 16 {
          len' := len' - 1;
        }
      }
      ghost var b := buf[..len];
      assert buf[..len'] == b[..len'];
      if base == 16 {
        len' := PushChar(buf, len', if flags.uppercase then 'X' else 'x');
      } else if base == 2 {
        len' := PushChar(buf, len', 'b');
      }
      len' := PushChar(buf, len', '0');
    }
  }

  /** `_ntoa_format`. */
  method PutFormatted(sink: Sink, buf: array<char>, len0: nat, negative: bool, base: nat, prec: nat, width0: nat,
                      flags: Flags)
    requires sink.Valid() && buf != sink.buffer && buf.Length == NTOA_BUFFER && len0 <= NTOA_BUFFER
    modifies buf, sink`idx, sink`text, sink.buffer
    ensures sink.Valid()
    ensures var w := ZeroWidth(negative, width0, flags);
      sink.text == old(sink.text) +
        OutRev(WithSign(WithHash(WithZeros(old(buf[..len0]), prec, w, flags), base, prec, w, flags), negative, flags),
               w, flags)
  {
    hide OutRev, ZerosTo, WithHash, Push;
    var len, width := len0, width0;
    if !flags.left {
      if width > 0 && flags.zeropad && (negative || flags.plus || flags.space) {
        width := width - 1;
      }
      len := PushZeros(buf, len, prec);
      if flags.zeropad {
        len := PushZeros(buf, len, width);
      }
    }
    len := PushHash(buf, len, base, prec, width, flags);
    if negative {
      len := PushChar(buf, len, '-');
    } else if flags.plus {
      len := PushChar(buf, len, '+');
    } else if flags.space {
      len := PushChar(buf, len, ' ');
    }
    PutReversed(sink, buf, len, width, flags);
  }

  /** `_ntoa_long` and `_ntoa_long_long`. */
  method PutNumber(sink: Sink, value0: nat, negative: bool, base: nat, prec: nat, width: nat, flags0: Flags)
    requires sink.Valid() && IsBase(base)
    modifies sink`idx, sink`text, sink.buffer
    ensures sink.Valid() && sink.text == old(sink.text) + Ntoa(value0, negative, base, prec, width, flags0)
  {
    var buf := new char[NTOA_BUFFER](_ => '0');
    var flags := if value0 == 0 then flags0.(hash := false) else flags0;
    var len := 0;
    if !flags.precision || value0 != 0 {
      len := CollectDigits(buf, value0, base, flags.uppercase);
    }
    NtoaStages(value0, negative, base, prec, width, flags0);
    hide Digits, Ntoa, OutRev, WithSign, WithHash, WithZeros;
    assert buf[..len] == NtoaDigits(value0, base, flags);
    PutFormatted(sink, buf, len, negative, base, prec, width, flags);
  }

  /** A zero value drops the `#` flag before everything else. */
  lemma NtoaStages(value: nat, negative: bool, base: nat, prec: nat, width: nat, flags0: Flags)
    requires IsBase(base)
    ensures var flags := if value == 0 then flags0.(hash := false) else flags0;
      var w := ZeroWidth(negative, width, flags);
      Ntoa(value, negative, base, prec, width, flags0) ==
        OutRev(WithSign(WithHash(WithZeros(NtoaDigits(value, base, flags), prec, w, flags), base, prec, w, flags),
                        negative, flags), w, flags)
  {
    hide NtoaDigits, WithZeros, WithHash, WithSign;
  }

  lemma DigitsUnfold(value: nat, base: nat, uppercase: bool, n: nat)
    requires IsBase(base) && n > 0
    ensures Digits(value, base, uppercase, n) == [DigitChar(value % base, uppercase)] +
      if value / base != 0 && n > 1 then Digits(value / base, base, uppercase, n - 1) else []
  {
  }

  /** The do-while loop that collects the digits, least significant first. */
  method CollectDigits(buf: array<char>, value0: nat, base: nat, uppercase: bool) returns (len: nat)
    requires buf.Length == NTOA_BUFFER && IsBase(base)
    modifies buf
    ensures len <= NTOA_BUFFER && buf[..len] == Digits(value0, base, uppercase, NTOA_BUFFER)
  {
    hide Digits, DigitChar;
    var value: nat := value0;
    len := 0;
    assert buf[..0] == [];
    while true
      invariant len < NTOA_BUFFER
      invariant buf[..len] + Digits(value, base, uppercase, NTOA_BUFFER - len)
             == Digits(value0, base, uppercase, NTOA_BUFFER)
      decreases NTOA_BUFFER - len
    {
      DigitsUnfold(value, base, uppercase, NTOA_BUFFER - len);
      var digit := value % base;
      ghost var b := buf[..len];
      buf[len] := DigitChar(digit, uppercase);
      len := len + 1;
      value := value / base;
      assert buf[..len] == b + [DigitChar(digit, uppercase)];
      if !(value != 0 && len < NTOA_BUFFER) {
        break;
      }
    }
  }

  // ---------------------------------------------------------------- reading a specification

  /** `_atoi`. */
  method Atoi(fmt: string, start: nat) returns (value: nat, pos: nat)
    requires start <= |fmt|
    ensures (value, pos) == AtoiFrom(fmt, start, 0) && start <= pos <= |fmt|
  {
    value, pos := 0, start;
    while pos < |fmt| && IsDigit(fmt[pos], 10)
      invariant start <= pos <= |fmt|
      invariant AtoiFrom(fmt, pos, value) == AtoiFrom(fmt, start, 0)
    {
      value := (value * 10 + DigitOf(fmt[pos])) % TWO_32;
      pos := pos + 1;
    }
  }

  method ScanFlags(fmt: string, start: nat) returns (flags: Flags, pos: nat)
    requires start <= |fmt|
    ensures (flags, pos) == ParseFlags(fmt, start, NO_FLAGS) && start <= pos <= |fmt|
  {
    flags, pos := NO_FLAGS, start;
    while pos < |fmt| && FlagOf(fmt[pos], flags).Some?
      invariant start <= pos <= |fmt|
      invariant ParseFlags(fmt, pos, flags) == ParseFlags(fmt, start, NO_FLAGS)
    {
      flags := FlagOf(fmt[pos], flags).value;
      pos := pos + 1;
    }
  }

  method ScanWidth(fmt: string, s0: Spec) returns (s: Spec)
    requires s0.pos <= |fmt| && ParseWidth(fmt, s0).Some?
    ensures s == ParseWidth(fmt, s0).value
  {
    s := s0;
    if s.pos < |fmt| && IsDigit(fmt[s.pos], 10) {
      var w, p := Atoi(fmt, s.pos);
      s := s.(width := w, pos := p);
    } else if s.pos < |fmt| && fmt[s.pos] == '*' {
      var w := ToSigned(s.args[0].value, TWO_32);
      if w < 0 {
        s := s.(flags := s.flags.(left := true), width := -w);
      } else {
        s := s.(width := w);
      }
      s := s.(pos := s.pos + 1, args := s.args[1..]);
    }
  }

  method ScanPrecision(fmt: string, s0: Spec) returns (s: Spec)
    requires s0.pos <= |fmt| && ParsePrecision(fmt, s0).Some?
    ensures s == ParsePrecision(fmt, s0).value
  {
    s := s0;
    if s.pos < |fmt| && fmt[s.pos] == '.' {
      s := s.(flags := s.flags.(precision := true), pos := s.pos + 1);
      if s.pos < |fmt| && IsDigit(fmt[s.pos], 10) {
        var n, p := Atoi(fmt, s.pos);
        s := s.(prec := n, pos := p);
      } else if s.pos < |fmt| && fmt[s.pos] == '*' {
        var n := ToSigned(s.args[0].value, TWO_32);
        s := s.(prec := if n > 0 then n else 0, pos := s.pos + 1, args := s.args[1..]);
      }
    }
  }

  method ScanLength(fmt: string, s0: Spec) returns (s: Spec)
    requires s0.pos <= |fmt|
    ensures s == ParseLength(fmt, s0)
  {
    s := s0;
    if s.pos == |fmt| {
      return;
    }
    match fmt[s.pos] {
      case 'l' =>
        s := s.(flags := s.flags.(long := true), pos := s.pos + 1);
        if s.pos < |fmt| && fmt[s.pos] == 'l' {
          s := s.(flags := s.flags.(longLong := true), pos := s.pos + 1);
        }
      case 'h' =>
        s := s.(flags := s.flags.(short := true), pos := s.pos + 1);
        if s.pos < |fmt| && fmt[s.pos] == 'h' {
          s := s.(flags := s.flags.(chr := true), pos := s.pos + 1);
        }
      case 't' => s := s.(flags := s.flags.(long := true), pos := s.pos + 1);
      case 'j' => s := s.(flags := s.flags.(long := true), pos := s.pos + 1);
      case 'z' => s := s.(flags := s.flags.(long := true), pos := s.pos + 1);
      case _ =>
    }
  }

  method ScanSpec(fmt: string, pos: nat, args: seq<Arg>) returns (s: Spec)
    requires pos <= |fmt| && ParseSpec(fmt, pos, args).Some?
    ensures s == ParseSpec(fmt, pos, args).value
  {
    hide ParseWidth, ParsePrecision, ParseLength;
    var flags, p := ScanFlags(fmt, pos);
    s := ScanWidth(fmt, Spec(flags, 0, 0, p, args));
    s := ScanPrecision(fmt, s);
    s := ScanLength(fmt, s);
  }

  // ---------------------------------------------------------------- conversions

  /** The `c` and `s` cases: spaces before or after the text. */
  method PutPadded(sink: Sink, text: string, width: nat, left: bool)
    requires sink.Valid()
    modifies sink`idx, sink`text, sink.buffer
    ensures sink.Valid() && sink.text == old(sink.text) + Padded(text, width, left)
  {
    if !left {
      sink.Pad(' ', width - |text|);
    }
    sink.PutAll(text);
    if left {
      sink.Pad(' ', width - |text|);
    }
  }

  method PutInteger(sink: Sink, c: char, s: Spec, x: int)
    requires sink.Valid() && IntegerField(c, s, x).Some?
    modifies sink`idx, sink`text, sink.buffer
    ensures sink.Valid() && sink.text == old(sink.text) + IntegerField(c, s, x).value
  {
    hide Ntoa;
    var flags := IntegerFlags(c, s.flags);
    if IsSignedConversion(c) {
      var v := SignedArg(flags, x);
      PutNumber(sink, Magnitude(v), v < 0, BaseOf(c), s.prec, s.width, flags);
    } else {
      PutNumber(sink, UnsignedArg(flags, x), false, BaseOf(c), s.prec, s.width, flags);
    }
  }

  /** The `switch` on the conversion character. */
  method PutConversion(sink: Sink, fmt: string, s: Spec) returns (args: seq<Arg>)
    requires sink.Valid() && s.pos <= |fmt| && Convert(fmt, s).Some?
    modifies sink`idx, sink`text, sink.buffer
    ensures sink.Valid() && sink.text == old(sink.text) + Convert(fmt, s).value.0
    ensures args == Convert(fmt, s).value.1
  {
    hide Ntoa, Padded, IntegerField;
    var c := fmt[s.pos];
    if IsIntegerConversion(c) {
      PutInteger(sink, c, s, s.args[0].value);
      args := s.args[1..];
    } else if c == 'c' {
      PutPadded(sink, [(s.args[0].value % 0x100) as char], s.width, s.flags.left);
      args := s.args[1..];
    } else if c == 's' {
      PutPadded(sink, Clipped(s.args[0].text, s), s.width, s.flags.left);
      args := s.args[1..];
    } else if c == 'p' {
      PutNumber(sink, s.args[0].value % TWO_64, false, 16, s.prec, 16,
                s.flags.(zeropad := true, uppercase := true));
      args := s.args[1..];
    } else {
      sink.Put(c);
      args := s.args;
    }
  }

  // ---------------------------------------------------------------- the whole formatter

  /** The output loop of `_vsnprintf`. */
  method PutFormat(sink: Sink, fmt: string, args0: seq<Arg>)
    requires sink.Valid() && sink.text == [] && Render(fmt, 0, args0).Some?
    modifies sink`idx, sink`text, sink.buffer
    ensures sink.Valid() && sink.text == Render(fmt, 0, args0).value && sink.idx == |sink.text|
  {
    hide ParseSpec, Convert, Render;
    var pos, args := 0, args0;
    while !AtEnd(fmt, pos)
      invariant pos <= |fmt| && sink.Valid()
      invariant Render(fmt, pos, args).Some?
      invariant sink.text + Render(fmt, pos, args).value == Render(fmt, 0, args0).value
      decreases |fmt| - pos
    {
      RenderTurn(fmt, pos, args);
      if fmt[pos] != '%' {
        sink.Put(fmt[pos]);
        pos := pos + 1;
      } else {
        var s := ScanSpec(fmt, pos + 1, args);
        args := PutConversion(sink, fmt, s);
        pos := s.pos + 1;
      }
    }
    RenderEnd(fmt, pos, args);
  }

  /** `snprintf`: the buffer receives the first `count - 1` characters of the rendering, or all of
      them, then a NUL; nothing else changes; and the result is the length of the whole
      rendering (as a C `int`), whatever `count` is. */
  method Vsnprintf(buffer: array<char>, count: nat, fmt: string, args: seq<Arg>) returns (n: int)
    requires count <= buffer.Length && Render(fmt, 0, args).Some?
    modifies buffer
    ensures n == ToSigned(|Render(fmt, 0, args).value|, TWO_32)
    ensures count == 0 ==> buffer[..] == old(buffer[..])
    ensures count > 0 ==>
      var text := Render(fmt, 0, args).value;
      var k := Min(|text|, count - 1);
      buffer[..] == text[..k] + ['\0'] + old(buffer[..])[k + 1..]
  {
    hide Render, ToSigned, Min, Sink.Valid;
    var sink := new Sink(buffer, count);
    PutFormat(sink, fmt, args);
    sink.Terminate();
    n := ToSigned(sink.idx, TWO_32);
  }
}
