/** The tiny printf of newlib_wrap/printf.c: what reaches the buffer is the text, truncated. */
module Printf {
  import opened Sequences
  import opened PrintfText
  import opened Directives

  /** An output function with its buffer and size: _out_buffer or _out_null. */
  datatype Sink = BufferSink(buffer: array<char>, maxlen: nat) | NullSink {
    ghost function Footprint(): set<object> { if BufferSink? then {buffer} else {} }

    /** The buffer is large enough for n characters, cut to the size stated. (sprintf states the largest size.) */
    ghost predicate RoomFor(n: nat) { BufferSink? ==> Min(maxlen, n) <= buffer.Length }

    ghost function Contents(): seq<char>
      reads if BufferSink? then {buffer} else {}
    {
      if BufferSink? then buffer[..] else []
    }

    function Limit(): nat { if BufferSink? then maxlen else 0 }
  }

  /** The buffer after text has been put at idx: only what lies below the limit is stored. */
  ghost function Stored(b: seq<char>, limit: nat, idx: nat, text: string): (c: seq<char>)
    ensures |c| == |b|
    ensures forall k :: 0 <= k < |b| ==> c[k] == if idx <= k < idx + |text| && k < limit then text[k - idx] else b[k]
  {
    seq(|b|, k requires 0 <= k < |b| => if idx <= k < idx + |text| && k < limit then text[k - idx] else b[k])
  }

  lemma StoredConcat(b: seq<char>, limit: nat, idx: nat, s: string, t: string)
    ensures Stored(Stored(b, limit, idx, s), limit, idx + |s|, t) == Stored(b, limit, idx, s + t)
  {
  }

  lemma StoredNothing(b: seq<char>, limit: nat, idx: nat)
    ensures Stored(b, limit, idx, []) == b
  {
  }

  method Put(sink: Sink, character: char, idx: nat)
    requires sink.RoomFor(idx + 1)
    modifies sink.Footprint()
    ensures sink.Contents() == Stored(old(sink.Contents()), sink.Limit(), idx, [character])
  {
    if sink.BufferSink? && idx < sink.maxlen {
      sink.buffer[idx] := character;
    }
  }

  method PutBlanks(sink: Sink, idx0: nat, n: int) returns (idx: nat)
    requires sink.RoomFor(idx0 + |Repeat(' ', n)|)
    modifies sink.Footprint()
    ensures idx == idx0 + |Repeat(' ', n)|
    ensures sink.Contents() == Stored(old(sink.Contents()), sink.Limit(), idx0, Repeat(' ', n))
  {
    hide Stored;
    idx := idx0;
    ghost var before := sink.Contents();
    StoredNothing(before, sink.Limit(), idx0);
    var i := 0;
    while i < n
      invariant 0 <= i && (i <= n || (i == 0 && n < 0)) && idx == idx0 + i
      invariant sink.Contents() == Stored(before, sink.Limit(), idx0, Repeat(' ', i))
    {
      StoredConcat(before, sink.Limit(), idx0, Repeat(' ', i), [' ']);
      assert Repeat(' ', i) + [' '] == Repeat(' ', i + 1);
      Put(sink, ' ', idx);
      idx := idx + 1;
      i := i + 1;
    }
  }

  /** Puts a text character by character. */
  method PutText(sink: Sink, idx0: nat, text: string) returns (idx: nat)
    requires sink.RoomFor(idx0 + |text|)
    modifies sink.Footprint()
    ensures idx == idx0 + |text|
    ensures sink.Contents() == Stored(old(sink.Contents()), sink.Limit(), idx0, text)
  {
    hide Stored;
    idx := idx0;
    ghost var before := sink.Contents();
    StoredNothing(before, sink.Limit(), idx0);
    for i := 0 to |text|
      invariant idx == idx0 + i
      invariant sink.Contents() == Stored(before, sink.Limit(), idx0, text[..i])
    {
      StoredConcat(before, sink.Limit(), idx0, text[..i], [text[i]]);
      assert text[..i] + [text[i]] == text[..i + 1];
      Put(sink, text[i], idx);
      idx := idx + 1;
    }
    assert text[..|text|] == text;
  }

  /** The loop of _out_rev. */
  method PutReversed(sink: Sink, idx0: nat, buf: array<char>, len0: nat) returns (idx: nat)
    requires buf !in sink.Footprint() && len0 <= buf.Length && sink.RoomFor(idx0 + len0)
    modifies sink.Footprint()
    ensures idx == idx0 + len0
    ensures sink.Contents() == Stored(old(sink.Contents()), sink.Limit(), idx0, Reversed(buf[..len0]))
  {
    hide Stored;
    ghost var before, body, done := sink.Contents(), buf[..len0], [];
    assert Reversed(body[..0]) == [];
    hide Reversed;
    idx := idx0;
    StoredNothing(before, sink.Limit(), idx0);
    var len := len0;
    assert body[..len0] == body;
    while len > 0
      invariant len <= len0 && buf[..len0] == body && |done| == len0 - len
      invariant done + Reversed(body[..len]) == Reversed(body)
      invariant idx == idx0 + |done| && sink.Contents() == Stored(before, sink.Limit(), idx0, done)
    {
      assert body[..len] == body[..len - 1] + [body[len - 1]];
      ReversedAppend(body[..len - 1], body[len - 1]);
      StoredConcat(before, sink.Limit(), idx0, done, [body[len - 1]]);
      len := len - 1;
      Put(sink, buf[len], idx);
      idx := idx + 1;
      assert done + ([body[len]] + Reversed(body[..len])) == (done + [body[len]]) + Reversed(body[..len]);
      done := done + [body[len]];
    }
    assert body[..len] == body[..0] && done + [] == done;
  }

  /** What _out_rev prints: blanks, the buffer backwards, blanks. */
  method OutRev(sink: Sink, idx0: nat, buf: array<char>, len: nat, width: nat, f: Flags) returns (idx: nat)
    requires buf !in sink.Footprint() && len <= buf.Length && sink.RoomFor(idx0 + |Columns(buf[..len], width, f)|)
    modifies sink.Footprint()
    ensures var text := Columns(buf[..len], width, f);
            idx == idx0 + |text| && sink.Contents() == Stored(old(sink.Contents()), sink.Limit(), idx0, text)
  {
    hide Stored, Reversed, Repeat;
    ghost var before, shown := sink.Contents(), Reversed(buf[..len]);
    ghost var pre := if !f.left && !f.zeropad then Repeat(' ', width - len) else [];
    ghost var post := if f.left then Repeat(' ', width - len) else [];
    StoredNothing(before, sink.Limit(), idx0);
    StoredConcat(before, sink.Limit(), idx0, pre, shown);
    StoredConcat(before, sink.Limit(), idx0, pre + shown, post);
    idx := idx0;
    if !f.left && !f.zeropad {
      idx := PutBlanks(sink, idx, width - len);
    }
    idx := PutReversed(sink, idx, buf, len);
    if f.left {
      idx := PutBlanks(sink, idx, width - (idx - idx0));
    } else {
      StoredNothing(sink.Contents(), sink.Limit(), idx);
    }
  }

  /** Zeros up to length n; the buffer ends at NTOA_BUFFER. */
  method PadZeros(buf: array<char>, len0: nat, n: nat) returns (len: nat)
    requires buf.Length == NTOA_BUFFER && len0 <= NTOA_BUFFER
    modifies buf
    ensures len <= NTOA_BUFFER && buf[..len] == ZeroTo(old(buf[..len0]), n)
  {
    len := len0;
    ghost var digits := buf[..len0];
    while len < n && len < NTOA_BUFFER
      invariant len0 <= len <= NTOA_BUFFER && (len == len0 || len <= n)
      invariant buf[..len] == digits + Repeat('0', len - len0)
    {
      buf[len] := '0';
      len := len + 1;
    }
  }

  method Append(buf: array<char>, len0: nat, c: char) returns (len: nat)
    requires buf.Length == NTOA_BUFFER && len0 <= NTOA_BUFFER
    modifies buf
    ensures len <= NTOA_BUFFER && buf[..len] == Room(old(buf[..len0]), c)
  {
    len := len0;
    if len < NTOA_BUFFER {
      buf[len] := c;
      len := len + 1;
    }
  }

  method HashPrefix(buf: array<char>, len0: nat, base: nat, prec: nat, width: nat, f: Flags) returns (len: nat)
    requires buf.Length == NTOA_BUFFER && len0 <= NTOA_BUFFER
    modifies buf
    ensures len <= NTOA_BUFFER
    ensures buf[..len] == HashPrefixed(HashDropped(old(buf[..len0]), base, prec, width, f), base, f)
  {
    len := len0;
    if !f.precision && len > 0 && (len == prec || len == width) {
      len := len - 1;
      if len > 0 && base == 16 {
        len := len - 1;
      }
    }
    assert buf[..len] == HashDropped(buf[..len0], base, prec, width, f);
    if base == 16 && !f.uppercase {
      len := Append(buf, len, 'x');
    } else if base == 16 && f.uppercase {
      len := Append(buf, len, 'X');
    } else if base == 2 {
      len := Append(buf, len, 'b');
    }
    len := Append(buf, len, '0');
  }

  /** Never writes past the buffer; what is printed is the digits with padding, prefix and sign. */
  method NtoaFormat(sink: Sink, idx0: nat, buf: array<char>, len0: nat, negative: bool, base: nat, prec: nat,
                    width0: nat, f: Flags) returns (idx: nat)
    requires buf !in sink.Footprint() && buf.Length == NTOA_BUFFER && len0 <= NTOA_BUFFER
    requires sink.RoomFor(idx0 + |Formatted(buf[..len0], negative, base, prec, width0, f)|)
    modifies sink.Footprint(), buf
    ensures var text := Formatted(old(buf[..len0]), negative, base, prec, width0, f);
            idx == idx0 + |text| && sink.Contents() == Stored(old(sink.Contents()), sink.Limit(), idx0, text)
  {
    hide Stored, Columns, ZeroTo, HashPrefixed, HashDropped, Room;
    ghost var before, digits := sink.Contents(), buf[..len0];
    var len, width := len0, width0;
    if !f.left {
      if width > 0 && f.zeropad && (negative || f.plus || f.space) {
        width := width - 1;
      }
      len := PadZeros(buf, len, prec);
      if f.zeropad {
        len := PadZeros(buf, len, width);
      }
    }
    assert width == ZeroWidth(negative, width0, f);
    assert buf[..len] == LeadingZeros(digits, prec, width, f);
    if f.hash {
      len := HashPrefix(buf, len, base, prec, width, f);
    }
    if negative {
      len := Append(buf, len, '-');
    } else if f.plus {
      len := Append(buf, len, '+');
    } else if f.space {
      len := Append(buf, len, ' ');
    }
    assert buf[..len] == Body(digits, negative, base, prec, width0, f);
    assert sink.Contents() == before;
    idx := OutRev(sink, idx0, buf, len, width, f);
  }

  /** The digits, least significant first. */
  method StoreDigits(buf: array<char>, value0: nat, base: nat, upper: bool) returns (len: nat)
    requires buf.Length == NTOA_BUFFER && 2 <= base <= 16
    modifies buf
    ensures len <= NTOA_BUFFER && buf[..len] == Digits(value0, base, upper, NTOA_BUFFER)
  {
    hide LowDigit, Rest, Digits;
    ghost var digits := Digits(value0, base, upper, NTOA_BUFFER);
    var value: nat := value0;
    len := 0;
    var more := true;
    while more
      invariant len <= NTOA_BUFFER
      invariant more ==> len < NTOA_BUFFER && digits == buf[..len] + Digits(value, base, upper, NTOA_BUFFER - len)
      invariant !more ==> digits == buf[..len]
      decreases more, NTOA_BUFFER - len
    {
      DigitsUnfold(value, base, upper, NTOA_BUFFER - len);
      buf[len] := LowDigit(value, base, upper);
      assert buf[..len + 1] == buf[..len] + [LowDigit(value, base, upper)];
      len := len + 1;
      value := Rest(value, base);
      more := value != 0 && len < NTOA_BUFFER;
    }
  }

  method Ntoa(sink: Sink, idx0: nat, value: nat, negative: bool, base: nat, prec: nat, width: nat, f0: Flags)
    returns (idx: nat)
    requires 2 <= base <= 16 && sink.RoomFor(idx0 + |Number(value, negative, base, prec, width, f0)|)
    modifies sink.Footprint()
    ensures var text := Number(value, negative, base, prec, width, f0);
            idx == idx0 + |text| && sink.Contents() == Stored(old(sink.Contents()), sink.Limit(), idx0, text)
  {
    hide Stored, Formatted, Digits;
    var buf := new char[NTOA_BUFFER];
    var len: nat, f := 0, f0;
    if value == 0 {
      f := f.(hash := false);
    }
    if !f.precision || value != 0 {
      len := StoreDigits(buf, value, base, f.uppercase);
    }
    idx := NtoaFormat(sink, idx0, buf, len, negative, base, prec, width, f);
  }

  method Atoi(str: string, p0: nat) returns (i: nat, p: nat)
    requires p0 <= |str|
    ensures p0 <= p <= |str| && (i, p) == ParseNumber(str, p0, 0)
  {
    i, p := 0, p0;
    while IsDigit(At(str, p))
      invariant p0 <= p <= |str| && ParseNumber(str, p, i) == ParseNumber(str, p0, 0)
      decreases |str| - p
    {
      i := Wrap32(i * 10 + (str[p] - '0') as nat);
      p := p + 1;
    }
  }

  method ReadFlags(fmt: string, p0: nat) returns (flags: Flags, p: nat)
    requires p0 <= |fmt|
    ensures FlagsRead(fmt, p0, p, flags)
    ensures (flags, p) == ParseFlags(fmt, p0, NO_FLAGS)
  {
    hide FlagsRead;
    FlagsAreRead(fmt, p0);
    p, flags := p0, NO_FLAGS;
    while IsFlag(At(fmt, p))
      invariant p0 <= p <= |fmt| && ParseFlags(fmt, p, flags) == ParseFlags(fmt, p0, NO_FLAGS)
      decreases |fmt| - p
    {
      flags := WithFlag(flags, fmt[p]);
      p := p + 1;
    }
  }

  method ReadWidth(fmt: string, va: nat -> Arg, r0: Fields) returns (r: Fields)
    requires r0.p <= |fmt|
    ensures r == ParseWidth(fmt, va, r0)
  {
    hide ParseNumber;
    r := r0;
    if IsDigit(At(fmt, r.p)) {
      var width, p := Atoi(fmt, r.p);
      r := r.(width := width, p := p);
    } else if At(fmt, r.p) == '*' {
      var w := AsSigned(va(r.a).number, U32);
      if w < 0 {
        r := r.(flags := r.flags.(left := true), width := -w);
      } else {
        r := r.(width := w);
      }
      r := r.(p := r.p + 1, a := r.a + 1);
    }
  }

  method ReadPrecision(fmt: string, va: nat -> Arg, r0: Fields) returns (r: Fields)
    requires r0.p <= |fmt|
    ensures r == ParsePrecision(fmt, va, r0)
  {
    hide ParseNumber;
    r := r0;
    if At(fmt, r.p) == '.' {
      r := r.(flags := r.flags.(precision := true), p := r.p + 1);
      if IsDigit(At(fmt, r.p)) {
        var precision, p := Atoi(fmt, r.p);
        r := r.(prec := precision, p := p);
      } else if At(fmt, r.p) == '*' {
        var prec := AsSigned(va(r.a).number, U32);
        r := r.(prec := if prec > 0 then prec else 0, p := r.p + 1, a := r.a + 1);
      }
    }
  }

  method ReadLength(fmt: string, r0: Fields) returns (r: Fields)
    requires r0.p <= |fmt|
    ensures r == ParseLength(fmt, r0)
  {
    r := r0;
    match At(fmt, r.p) {
      case 'l' =>
        r := r.(flags := r.flags.(isLong := true), p := r.p + 1);
        if At(fmt, r.p) == 'l' {
          r := r.(flags := r.flags.(isLongLong := true), p := r.p + 1);
        }
      case 'h' =>
        r := r.(flags := r.flags.(isShort := true), p := r.p + 1);
        if At(fmt, r.p) == 'h' {
          r := r.(flags := r.flags.(isChar := true), p := r.p + 1);
        }
      case 't' | 'j' | 'z' =>
        r := r.(flags := r.flags.(isLong := true), p := r.p + 1);
      case _ =>
    }
  }

  /** The fields between '%' and the specifier. */
  method ReadFields(fmt: string, va: nat -> Arg, p0: nat, a0: nat) returns (r: Fields, ghost ends: Ends)
    requires p0 <= |fmt|
    ensures FieldsRead(fmt, va, p0, a0, r, ends)
    ensures r == ParseFields(fmt, va, p0, a0)
  {
    hide ParseFlags, ParseWidth, ParsePrecision, ParseLength, FieldsRead, FlagsRead;
    ends := FieldsAreRead(fmt, va, p0, a0);
    var flags, p := ReadFlags(fmt, p0);
    r := ReadWidth(fmt, va, Fields(flags, 0, 0, p, a0));
    r := ReadPrecision(fmt, va, r);
    r := ReadLength(fmt, r);
  }

  method PutInteger(sink: Sink, idx0: nat, c: char, r: Fields, n: int, charSigned: bool) returns (idx: nat)
    requires IsInteger(c) && sink.RoomFor(idx0 + |IntegerText(c, r, n, charSigned)|)
    modifies sink.Footprint()
    ensures var text := IntegerText(c, r, n, charSigned);
            idx == idx0 + |text| && sink.Contents() == Stored(old(sink.Contents()), sink.Limit(), idx0, text)
  {
    hide Stored, Number, AsSigned;
    var base, flags := 10, r.flags;
    if c == 'x' || c == 'X' {
      base := 16;
    } else if c == 'o' {
      base := 8;
    } else if c == 'b' {
      base := 2;
    } else {
      flags := flags.(hash := false);
    }
    if c == 'X' {
      flags := flags.(uppercase := true);
    }
    if c != 'i' && c != 'd' {
      flags := flags.(plus := false, space := false);
    }
    if flags.precision {
      flags := flags.(zeropad := false);
    }
    if c == 'i' || c == 'd' {
      var value := SignedValue(n, flags, charSigned);
      idx := Ntoa(sink, idx0, if value > 0 then value else 0 - value, value < 0, base, r.prec, r.width, flags);
    } else {
      idx := Ntoa(sink, idx0, UnsignedValue(n, flags), false, base, r.prec, r.width, flags);
    }
  }

  method PutChar(sink: Sink, idx0: nat, c: char, width: nat, left: bool) returns (idx: nat)
    requires sink.RoomFor(idx0 + |Padded([c], width, left)|)
    modifies sink.Footprint()
    ensures var text := Padded([c], width, left);
            idx == idx0 + |text| && sink.Contents() == Stored(old(sink.Contents()), sink.Limit(), idx0, text)
  {
    hide Stored;
    ghost var before, blanks := sink.Contents(), Repeat(' ', width - 1);
    idx := idx0;
    if !left {
      idx := PutBlanks(sink, idx, width - 1);
      StoredConcat(before, sink.Limit(), idx0, blanks, [c]);
    } else {
      StoredConcat(before, sink.Limit(), idx0, [c], blanks);
    }
    Put(sink, c, idx);
    idx := idx + 1;
    if left {
      idx := PutBlanks(sink, idx, width - 1);
    }
  }

  /** _strnlen_s: no more than maxsize characters are looked at. */
  method Strnlen(str: CString, maxsize: nat) returns (n: nat)
    ensures n == Wrap32(Min(|str|, maxsize))
  {
    var s: nat, left := 0, maxsize;
    while At(str, s) != '\0' && left > 0
      invariant s <= |str| && left == maxsize - s >= 0
      decreases left
    {
      left := left - 1;
      s := s + 1;
    }
    n := Wrap32(s);
  }

  /** The characters of a string that its precision allows. */
  method PutShown(sink: Sink, idx0: nat, s: CString, r: Fields) returns (idx: nat)
    requires sink.RoomFor(idx0 + |StringText(s, r)|)
    modifies sink.Footprint()
    ensures idx == idx0 + |StringText(s, r)|
    ensures sink.Contents() == Stored(old(sink.Contents()), sink.Limit(), idx0, StringText(s, r))
  {
    hide Stored;
    ghost var before, shown: string := sink.Contents(), StringText(s, r);
    StoredNothing(before, sink.Limit(), idx0);
    idx := idx0;
    var p, precision := 0, r.prec;
    while At(s, p) != '\0' && (!r.flags.precision || precision > 0)
      invariant p <= |shown| && idx == idx0 + p
      invariant r.flags.precision ==> precision == r.prec - p
      invariant sink.Contents() == Stored(before, sink.Limit(), idx0, shown[..p])
      decreases |s| - p
    {
      StoredConcat(before, sink.Limit(), idx0, shown[..p], [shown[p]]);
      assert shown[..p] + [shown[p]] == shown[..p + 1];
      Put(sink, s[p], idx);
      precision := if r.flags.precision then precision - 1 else precision;
      p, idx := p + 1, idx + 1;
    }
    assert shown[..p] == shown;
  }

  /** The length that a string is padded from. */
  method LengthShown(s: CString, r: Fields) returns (l: nat)
    ensures l == StringLength(s, r)
  {
    hide Wrap32;
    l := Strnlen(s, if r.prec != 0 then r.prec else U64 - 1);
    if r.flags.precision {
      l := if l < r.prec then l else r.prec;
    }
  }

  method PutString(sink: Sink, idx0: nat, s: CString, r: Fields) returns (idx: nat)
    requires sink.RoomFor(idx0 + |StringField(s, r)|)
    modifies sink.Footprint()
    ensures var text := StringField(s, r);
            idx == idx0 + |text| && sink.Contents() == Stored(old(sink.Contents()), sink.Limit(), idx0, text)
  {
    hide Stored, StringText, StringLength, Repeat;
    var l := LengthShown(s, r);
    ghost var before, shown, blanks := sink.Contents(), StringText(s, r), Repeat(' ', r.width - l);
    StoredConcat(before, sink.Limit(), idx0, blanks, shown);
    StoredConcat(before, sink.Limit(), idx0, shown, blanks);
    idx := idx0;
    if !r.flags.left {
      idx := PutBlanks(sink, idx, r.width - l);
    }
    idx := PutShown(sink, idx, s, r);
    if r.flags.left {
      idx := PutBlanks(sink, idx, r.width - l);
    }
  }

  /** One directive. */
  method PutDirective(sink: Sink, idx0: nat, c: char, r: Fields, arg: Arg, charSigned: bool,
                      float: (char, Fields, Arg) -> string) returns (idx: nat)
    requires sink.RoomFor(idx0 + |DirectiveText(c, r, arg, charSigned, float)|)
    modifies sink.Footprint()
    ensures var text := DirectiveText(c, r, arg, charSigned, float);
            idx == idx0 + |text| && sink.Contents() == Stored(old(sink.Contents()), sink.Limit(), idx0, text)
  {
    hide Stored, IntegerText, Padded, StringField, Number;
    if IsInteger(c) {
      idx := PutInteger(sink, idx0, c, r, arg.number, charSigned);
    } else if IsFloat(c) {
      idx := PutText(sink, idx0, float(c, r, arg));
    } else if c == 'c' {
      idx := PutChar(sink, idx0, AsUnsigned(arg.number, 256) as char, r.width, r.flags.left);
    } else if c == 's' {
      idx := PutString(sink, idx0, arg.text, r);
    } else if c == 'p' {
      idx := Ntoa(sink, idx0, AsUnsigned(arg.number, U64), false, 16, r.prec, 16,
                  r.flags.(zeropad := true, uppercase := true));
    } else {
      Put(sink, c, idx0);
      idx := idx0 + 1;
    }
  }

  /** The buffer below the limit holds as much of the text as fits, then NUL; nothing else changes. */
  ghost predicate Truncated(before: seq<char>, after: seq<char>, limit: nat, text: string)
    requires Min(limit, |text| + 1) <= |before|
  {
    |after| == |before| &&
    if limit == 0 then after == before
    else
      var n := Min(|text|, limit - 1);
      after[..n] == text[..n] && after[n] == '\0' && after[n + 1..] == before[n + 1..]
  }

  lemma TerminatedIsTruncated(before: seq<char>, limit: nat, text: string, end: nat)
    requires Min(limit, |text| + 1) <= |before|
    requires limit > 0 ==> end == Min(|text|, limit - 1)
    ensures Truncated(before, Stored(Stored(before, limit, 0, text), limit, end, ['\0']), limit, text)
  {
  }

  /** One directive or plain character. */
  method PutPiece(sink: Sink, idx0: nat, fmt: string, va: nat -> Arg, p0: nat, a0: nat, charSigned: bool,
                  float: (char, Fields, Arg) -> string) returns (idx: nat, p: nat, a: nat)
    requires p0 < |fmt| && After(fmt, va, p0, a0).0 <= |fmt|
    requires sink.RoomFor(idx0 + |Piece(fmt, va, p0, a0, charSigned, float)|)
    modifies sink.Footprint()
    ensures (p, a) == After(fmt, va, p0, a0)
    ensures var text := Piece(fmt, va, p0, a0, charSigned, float);
            idx == idx0 + |text| && sink.Contents() == Stored(old(sink.Contents()), sink.Limit(), idx0, text)
  {
    hide Stored, DirectiveText, ParseFields;
    if fmt[p0] != '%' {
      Put(sink, fmt[p0], idx0);
      idx, p, a := idx0 + 1, p0 + 1, a0;
    } else {
      var r, ends := ReadFields(fmt, va, p0 + 1, a0);
      var c := fmt[r.p];
      idx := PutDirective(sink, idx0, c, r, va(r.a), charSigned, float);
      p, a := r.p + 1, if TakesArgument(c) then r.a + 1 else r.a;
    }
  }

  /** The loop over the format. */
  method PutAll(sink: Sink, fmt: string, va: nat -> Arg, charSigned: bool, float: (char, Fields, Arg) -> string)
    returns (idx: nat)
    requires Complete(fmt, va, 0, 0) && sink.RoomFor(|Text(fmt, va, 0, 0, charSigned, float)|)
    modifies sink.Footprint()
    ensures var text := Text(fmt, va, 0, 0, charSigned, float);
            idx == |text| && sink.Contents() == Stored(old(sink.Contents()), sink.Limit(), 0, text)
  {
    hide Stored, Piece, After;
    ghost var before, text, done := sink.Contents(), Text(fmt, va, 0, 0, charSigned, float), [];
    var p: nat, a: nat := 0, 0;
    idx := 0;
    StoredNothing(before, sink.Limit(), 0);
    while fmt[p] != '\0'
      invariant p < |fmt| && Complete(fmt, va, p, a)
      invariant text == done + Text(fmt, va, p, a, charSigned, float)
      invariant idx == |done| && sink.Contents() == Stored(before, sink.Limit(), 0, done)
      decreases |fmt| - p
    {
      ghost var shown := Piece(fmt, va, p, a, charSigned, float);
      StoredConcat(before, sink.Limit(), 0, done, shown);
      idx, p, a := PutPiece(sink, idx, fmt, va, p, a, charSigned, float);
      assert text == (done + shown) + Text(fmt, va, p, a, charSigned, float);
      done := done + shown;
    }
    assert done == text;
  }

  /** The count is that of the whole text, whatever the sink. */
  method Vsnprintf(sink: Sink, fmt: string, va: nat -> Arg, charSigned: bool, float: (char, Fields, Arg) -> string)
    returns (ret: int)
    requires Complete(fmt, va, 0, 0) && sink.Limit() < U64
    requires sink.RoomFor(|Text(fmt, va, 0, 0, charSigned, float)| + 1)
    modifies sink.Footprint()
    ensures ret == AsSigned(|Text(fmt, va, 0, 0, charSigned, float)|, U32)
    ensures sink.BufferSink? ==>
              Truncated(old(sink.buffer[..]), sink.buffer[..], sink.maxlen, Text(fmt, va, 0, 0, charSigned, float))
  {
    hide Stored, Truncated, Text;
    ghost var before, text := sink.Contents(), Text(fmt, va, 0, 0, charSigned, float);
    var idx := PutAll(sink, fmt, va, charSigned, float);
    if sink.BufferSink? {
      var end := if idx < sink.maxlen then idx else if sink.maxlen > 0 then sink.maxlen - 1 else U64 - 1;
      Put(sink, '\0', end);
      TerminatedIsTruncated(before, sink.maxlen, text, end);
    }
    ret := AsSigned(idx, U32);
  }
}
