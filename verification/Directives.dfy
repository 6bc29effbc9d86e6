/** What the characters of a directive say: %[flags][width][.precision][length], each part as long as it can be. */
module Directives {
  import opened Sequences
  import opened PrintfText
  import opened PrintfFacts

  const FLAG_CHARS := "0-+ #"
  const DIGIT_CHARS := "0123456789"

  /** fmt[p..q] is the longest run of these characters from p on. */
  ghost predicate LongestRun(fmt: string, p: nat, q: nat, chars: string) {
    p <= q <= |fmt| && (forall k :: p <= k < q ==> fmt[k] in chars) && !StartsWith(fmt, q, chars)
  }

  ghost predicate StartsWith(fmt: string, p: nat, chars: string) { p < |fmt| && fmt[p] in chars }

  /** The character c stands somewhere in fmt[p..q]. */
  ghost predicate Occurs(fmt: string, p: nat, q: nat, c: char) {
    exists k :: p <= k < q && k < |fmt| && fmt[k] == c
  }

  /** Every flag is set by its own character and by nothing else. */
  ghost predicate FlagsRead(fmt: string, p: nat, q: nat, f: Flags) {
    LongestRun(fmt, p, q, FLAG_CHARS) &&
    (f.zeropad <==> Occurs(fmt, p, q, '0')) && (f.left <==> Occurs(fmt, p, q, '-')) &&
    (f.plus <==> Occurs(fmt, p, q, '+')) && (f.space <==> Occurs(fmt, p, q, ' ')) &&
    (f.hash <==> Occurs(fmt, p, q, '#')) && NoOtherFlag(f)
  }

  predicate NoOtherFlag(f: Flags) {
    !f.uppercase && !f.isChar && !f.isShort && !f.isLong && !f.isLongLong && !f.precision
  }

  /** The number that the digits fmt[p..q] denote, as an unsigned int. */
  ghost predicate NumberRead(fmt: string, p: nat, q: nat, n: nat) {
    LongestRun(fmt, p, q, DIGIT_CHARS) && n == Denoted(Reversed(fmt[p..q]), 10) % 0x1_0000_0000
  }

  /** Two's complement of 32 bits. */
  ghost predicate IsInt32(n: int, v: int) {
    -0x8000_0000 <= v < 0x8000_0000 && v % 0x1_0000_0000 == n % 0x1_0000_0000
  }

  function Int32(n: int): (v: int)
    ensures IsInt32(n, v)
  {
    AsSigned(n, U32)
  }

  /** The width: digits, or the magnitude of an argument, or none. */
  ghost predicate WidthRead(fmt: string, arg: int, p: nat, q: nat, width: nat) {
    if StartsWith(fmt, p, DIGIT_CHARS) then NumberRead(fmt, p, q, width)
    else if StartsWith(fmt, p, "*") then q == p + 1 && width == if arg < 0 then -arg else arg
    else q == p && width == 0
  }

  /** The precision behind a dot: digits, or an argument if it is positive, or 0. */
  ghost predicate PrecisionRead(fmt: string, arg: int, p: nat, q: nat, prec: nat) {
    if !StartsWith(fmt, p, ".") then q == p && prec == 0
    else if StartsWith(fmt, p + 1, DIGIT_CHARS) then NumberRead(fmt, p + 1, q, prec)
    else if StartsWith(fmt, p + 1, "*") then q == p + 2 && prec == if arg > 0 then arg else 0
    else q == p + 1 && prec == 0
  }

  /** The longest of the length modifiers. */
  ghost predicate LengthRead(fmt: string, p: nat, q: nat, f: Flags) {
    p <= q <= |fmt| &&
    var modifier := fmt[p..q];
    modifier in {"", "l", "ll", "h", "hh", "t", "j", "z"} &&
    (modifier == "" ==> !StartsWith(fmt, q, "lhtjz")) &&
    (modifier == "l" ==> !StartsWith(fmt, q, "l")) && (modifier == "h" ==> !StartsWith(fmt, q, "h")) &&
    (f.isLong <==> modifier in {"l", "ll", "t", "j", "z"}) && (f.isLongLong <==> modifier == "ll") &&
    (f.isShort <==> modifier in {"h", "hh"}) && (f.isChar <==> modifier == "hh")
  }

  /** Where the parts of a directive end. */
  datatype Ends = Ends(flags: nat, width: nat, precision: nat)

  ghost predicate Wide(fmt: string, ends: Ends) { StartsWith(fmt, ends.flags, "*") }

  ghost predicate Precise(fmt: string, ends: Ends) {
    StartsWith(fmt, ends.width, ".") && StartsWith(fmt, ends.width + 1, "*")
  }

  /** r is what the directive says whose flags start at p, with its arguments from number a on. The left flag is
  also set by a negative width; a star takes an argument. */
  ghost predicate FieldsRead(fmt: string, va: nat -> Arg, p: nat, a: nat, r: Fields, ends: Ends) {
    var width := Int32(va(a).number);
    var a1 := if Wide(fmt, ends) then a + 1 else a;
    var prec := Int32(va(a1).number);
    LongestRun(fmt, p, ends.flags, FLAG_CHARS) &&
    WidthRead(fmt, width, ends.flags, ends.width, r.width) &&
    PrecisionRead(fmt, prec, ends.width, ends.precision, r.prec) &&
    LengthRead(fmt, ends.precision, r.p, r.flags) &&
    r.a == (if Precise(fmt, ends) then a1 + 1 else a1) &&
    (r.flags.zeropad <==> Occurs(fmt, p, ends.flags, '0')) &&
    (r.flags.left <==> Occurs(fmt, p, ends.flags, '-') || (Wide(fmt, ends) && width < 0)) &&
    (r.flags.plus <==> Occurs(fmt, p, ends.flags, '+')) &&
    (r.flags.space <==> Occurs(fmt, p, ends.flags, ' ')) &&
    (r.flags.hash <==> Occurs(fmt, p, ends.flags, '#')) &&
    (r.flags.precision <==> StartsWith(fmt, ends.width, ".")) &&
    !r.flags.uppercase
  }

  // ---------- every directive is read like that ----------

  /** The flags f with those that the characters fmt[p..q] add. */
  ghost predicate FlagsAdded(fmt: string, p: nat, q: nat, f: Flags, g: Flags) {
    LongestRun(fmt, p, q, FLAG_CHARS) &&
    (g.zeropad <==> f.zeropad || Occurs(fmt, p, q, '0')) && (g.left <==> f.left || Occurs(fmt, p, q, '-')) &&
    (g.plus <==> f.plus || Occurs(fmt, p, q, '+')) && (g.space <==> f.space || Occurs(fmt, p, q, ' ')) &&
    (g.hash <==> f.hash || Occurs(fmt, p, q, '#')) && (NoOtherFlag(f) ==> NoOtherFlag(g))
  }

  lemma OccursFirst(fmt: string, p: nat, q: nat, c: char)
    requires p < q <= |fmt|
    ensures Occurs(fmt, p, q, c) <==> fmt[p] == c || Occurs(fmt, p + 1, q, c)
  {
  }

  lemma RunFirst(fmt: string, p: nat, q: nat, chars: string)
    requires StartsWith(fmt, p, chars) && LongestRun(fmt, p + 1, q, chars)
    ensures LongestRun(fmt, p, q, chars)
  {
  }

  lemma FlagsAddedFirst(fmt: string, p: nat, q: nat, f: Flags, g: Flags)
    requires p < q <= |fmt| && IsFlag(fmt[p]) && FlagsAdded(fmt, p + 1, q, WithFlag(f, fmt[p]), g)
    ensures FlagsAdded(fmt, p, q, f, g)
  {
    hide Occurs, LongestRun, WithFlag, IsFlag;
    FlagChars(fmt[p]);
    hide FLAG_CHARS;
    WithFlagFields(f, fmt[p]);
    RunFirst(fmt, p, q, FLAG_CHARS);
    OccursFirst(fmt, p, q, '0');
    OccursFirst(fmt, p, q, '-');
    OccursFirst(fmt, p, q, '+');
    OccursFirst(fmt, p, q, ' ');
    OccursFirst(fmt, p, q, '#');
  }

  lemma WithFlagFields(f: Flags, c: char)
    requires IsFlag(c)
    ensures WithFlag(f, c) ==
            f.(zeropad := f.zeropad || c == '0', left := f.left || c == '-', plus := f.plus || c == '+',
               space := f.space || c == ' ', hash := f.hash || c == '#')
  {
  }

  lemma FlagsAddedNone(fmt: string, p: nat, f: Flags)
    requires p <= |fmt| && !IsFlag(At(fmt, p))
    ensures FlagsAdded(fmt, p, p, f, f)
  {
  }

  lemma {:induction false} FlagsAreAdded(fmt: string, p: nat, f: Flags)
    requires p <= |fmt|
    ensures FlagsAdded(fmt, p, ParseFlags(fmt, p, f).1, f, ParseFlags(fmt, p, f).0)
    decreases |fmt| - p
  {
    hide FlagsAdded, WithFlag, IsFlag;
    if IsFlag(At(fmt, p)) {
      assert !IsFlag('\0') by { FlagChars('\0'); }
      FlagsAreAdded(fmt, p + 1, WithFlag(f, fmt[p]));
      FlagsAddedFirst(fmt, p, ParseFlags(fmt, p, f).1, f, ParseFlags(fmt, p, f).0);
    } else {
      FlagsAddedNone(fmt, p, f);
    }
  }

  lemma FlagChars(c: char)
    ensures IsFlag(c) <==> c in FLAG_CHARS
  {
  }

  lemma FlagsAreRead(fmt: string, p: nat)
    requires p <= |fmt|
    ensures var (f, q) := ParseFlags(fmt, p, NO_FLAGS); FlagsRead(fmt, p, q, f)
  {
    hide ParseFlags, Occurs, LongestRun;
    FlagsAreAdded(fmt, p, NO_FLAGS);
  }

  lemma {:induction false} DigitsEnd(fmt: string, p: nat, i: nat)
    requires p <= |fmt|
    ensures LongestRun(fmt, p, ParseNumber(fmt, p, i).1, DIGIT_CHARS)
    ensures Decimal(fmt[p..ParseNumber(fmt, p, i).1]) && !IsDigit(At(fmt, ParseNumber(fmt, p, i).1))
    decreases |fmt| - p
  {
    hide Wrap32;
    IsDigitChar(At(fmt, p));
    if IsDigit(At(fmt, p)) {
      DigitsEnd(fmt, p + 1, Wrap32(i * 10 + (fmt[p] - '0') as nat));
    }
  }

  lemma IsDigitChar(c: char)
    ensures IsDigit(c) <==> c in DIGIT_CHARS
  {
  }

  lemma {:induction false} ReversedDecimal(s: string)
    requires Decimal(s)
    ensures Decimal(Reversed(s))
  {
    forall k | 0 <= k < |s|
      ensures IsDigit(Reversed(s)[k])
    {
      ReversedAt(s, k);
    }
  }

  lemma NumberIsRead(fmt: string, p: nat)
    requires p <= |fmt|
    ensures NumberRead(fmt, p, ParseNumber(fmt, p, 0).1, ParseNumber(fmt, p, 0).0)
  {
    var q := ParseNumber(fmt, p, 0).1;
    DigitsEnd(fmt, p, 0);
    var ds := Reversed(fmt[p..q]);
    ReversedTwice(fmt[p..q]);
    ReversedDecimal(fmt[p..q]);
    assert p + |ds| == q;
    ParseReversed(fmt, p, 0, ds);
    hide Reversed, Denoted, ParseNumber, LongestRun, Pow;
  }

  lemma WidthIsRead(fmt: string, va: nat -> Arg, r: Fields)
    requires r.p <= |fmt|
    ensures var r' := ParseWidth(fmt, va, r);
            var w, star := Int32(va(r.a).number), StartsWith(fmt, r.p, "*");
            (r.width == 0 ==> WidthRead(fmt, w, r.p, r'.p, r'.width)) &&
            r' == r.(flags := r.flags.(left := r.flags.left || (star && w < 0)), width := r'.width, p := r'.p,
                     a := if star then r.a + 1 else r.a)
  {
    IsDigitChar(At(fmt, r.p));
    NumberIsRead(fmt, r.p);
    hide ParseNumber, IsDigit, AsSigned, LongestRun, Denoted, Reversed, NumberRead;
  }

  lemma PrecisionIsRead(fmt: string, va: nat -> Arg, r: Fields)
    requires r.p <= |fmt|
    ensures var r' := ParsePrecision(fmt, va, r);
            var dot := StartsWith(fmt, r.p, ".");
            var star := dot && StartsWith(fmt, r.p + 1, "*");
            (r.prec == 0 ==> PrecisionRead(fmt, Int32(va(r.a).number), r.p, r'.p, r'.prec)) &&
            r' == r.(flags := r.flags.(precision := r.flags.precision || dot), prec := r'.prec, p := r'.p,
                     a := if star then r.a + 1 else r.a)
  {
    IsDigitChar(At(fmt, r.p + 1));
    if At(fmt, r.p) == '.' {
      NumberIsRead(fmt, r.p + 1);
    }
    hide ParseNumber, IsDigit, AsSigned, LongestRun, Denoted, Reversed, NumberRead;
  }

  lemma LengthIsRead(fmt: string, r: Fields)
    requires r.p <= |fmt| && !r.flags.isChar && !r.flags.isShort && !r.flags.isLong && !r.flags.isLongLong
    ensures var r' := ParseLength(fmt, r);
            LengthRead(fmt, r.p, r'.p, r'.flags) &&
            r' == r.(flags := r'.flags, p := r'.p) &&
            r'.flags == r.flags.(isChar := r'.flags.isChar, isShort := r'.flags.isShort, isLong := r'.flags.isLong,
                                 isLongLong := r'.flags.isLongLong)
  {
    var p, q := r.p, ParseLength(fmt, r).p;
    var modifier := fmt[p..q];
    if At(fmt, p) == 'l' {
      assert modifier == if q == p + 2 then "ll" else "l";
    } else if At(fmt, p) == 'h' {
      assert modifier == if q == p + 2 then "hh" else "h";
    } else if q == p + 1 {
      assert modifier == [fmt[p]];
    } else {
      assert modifier == "";
    }
  }

  /** The fields found are those that the characters spell. */
  lemma FieldsAreRead(fmt: string, va: nat -> Arg, p: nat, a: nat) returns (ends: Ends)
    requires p <= |fmt|
    ensures FieldsRead(fmt, va, p, a, ParseFields(fmt, va, p, a), ends)
  {
    hide ParseFlags, ParseWidth, ParsePrecision, ParseLength, Occurs, LongestRun, Int32, WidthRead, PrecisionRead,
         LengthRead, StartsWith;
    var (flags, q) := ParseFlags(fmt, p, NO_FLAGS);
    var r1 := Fields(flags, 0, 0, q, a);
    var r2 := ParseWidth(fmt, va, r1);
    var r3 := ParsePrecision(fmt, va, r2);
    FlagsAreRead(fmt, p);
    WidthIsRead(fmt, va, r1);
    PrecisionIsRead(fmt, va, r2);
    LengthIsRead(fmt, r3);
    ends := Ends(q, r2.p, r3.p);
  }
}
