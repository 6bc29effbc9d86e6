/** How the printed numbers fill their fields, and where the digit buffer is too short for it. */
module PrintfFields {
  import opened Sequences
  import opened PrintfText
  import opened PrintfFacts

  /** The buffer of _ntoa_format never overflows, whatever the flags, precision and width. */
  lemma BodyFits(digits: string, negative: bool, base: nat, prec: nat, width: nat, f: Flags)
    requires |digits| <= NTOA_BUFFER
    ensures |Body(digits, negative, base, prec, width, f)| <= NTOA_BUFFER
  {
  }

  function Max(a: int, b: int): int { if a < b then b else a }

  function SignText(negative: bool, f: Flags): string {
    if negative then "-" else if f.plus then "+" else if f.space then " " else ""
  }

  /** A number's field from left to right, as a reader expects it. */
  function Layout(digits: string, negative: bool, prec: nat, width: nat, f: Flags): string {
    var sign, numeral := SignText(negative, f), Reversed(digits);
    if f.left then
      sign + numeral + Repeat(' ', width - |sign| - |numeral|)
    else if f.zeropad then
      sign + Repeat('0', Max(prec, width - |sign|) - |numeral|) + numeral
    else
      Repeat(' ', width - |sign| - Max(prec, |numeral|)) + sign + Repeat('0', prec - |numeral|) + numeral
  }

  // ---------- the buffer without '#' ----------

  /** The number of digits that padding is to bring a number to. */
  function Target(negative: bool, prec: nat, width: nat, f: Flags): nat {
    if f.left then 0 else if f.zeropad then Max(prec, ZeroWidth(negative, width, f)) else prec
  }

  /** The sign, if the buffer has room for it. */
  function SignKept(digits: nat, negative: bool, prec: nat, width: nat, f: Flags): string {
    var sign := SignText(negative, f);
    if Max(Target(negative, prec, width, f), digits) + |sign| <= NTOA_BUFFER then sign else ""
  }

  /** How many zeros are put in front of the digits. */
  function Zeros(digits: nat, negative: bool, prec: nat, width: nat, f: Flags): int {
    Min(Target(negative, prec, width, f), NTOA_BUFFER) - digits
  }

  lemma {:induction false} ReversedConcat<T>(s: seq<T>, t: seq<T>)
    ensures Reversed(s + t) == Reversed(t) + Reversed(s)
    decreases |t|
  {
    if t == [] {
      assert s + t == s;
    } else {
      assert s + t == s + [t[0]] + t[1..];
      ReversedConcat(s + [t[0]], t[1..]);
      ReversedAppend(s, t[0]);
    }
  }

  lemma {:induction false} ReversedRepeat(c: char, n: int)
    ensures Reversed(Repeat(c, n)) == Repeat(c, n)
  {
    if n > 0 {
      assert Repeat(c, n) == Repeat(c, n - 1) + [c];
      assert Repeat(c, n) == [c] + Repeat(c, n - 1);
      ReversedAppend(Repeat(c, n - 1), c);
      ReversedRepeat(c, n - 1);
    }
  }

  lemma LeadingZerosText(digits: string, negative: bool, prec: nat, width: nat, f: Flags)
    requires |digits| <= NTOA_BUFFER
    ensures LeadingZeros(digits, prec, ZeroWidth(negative, width, f), f) ==
            digits + Repeat('0', Zeros(|digits|, negative, prec, width, f))
  {
  }

  lemma BodyBackwards(digits: string, negative: bool, base: nat, prec: nat, width: nat, f: Flags)
    requires !f.hash && |digits| <= NTOA_BUFFER
    ensures Body(digits, negative, base, prec, width, f) ==
            digits + Repeat('0', Zeros(|digits|, negative, prec, width, f)) +
            SignKept(|digits|, negative, prec, width, f)
  {
    hide LeadingZeros, Repeat;
    LeadingZerosText(digits, negative, prec, width, f);
  }

  /** Sign, zeros, numeral: the sign only if there is room, the zeros only up to the end of the buffer. */
  lemma BodyText(digits: string, negative: bool, base: nat, prec: nat, width: nat, f: Flags)
    requires !f.hash && |digits| <= NTOA_BUFFER
    ensures Reversed(Body(digits, negative, base, prec, width, f)) ==
            SignKept(|digits|, negative, prec, width, f) +
            Repeat('0', Zeros(|digits|, negative, prec, width, f)) + Reversed(digits)
  {
    hide *;
    var n := Zeros(|digits|, negative, prec, width, f);
    var sign, zeros := SignKept(|digits|, negative, prec, width, f), Repeat('0', n);
    BodyBackwards(digits, negative, base, prec, width, f);
    ReversedConcat(digits + zeros, sign);
    ReversedConcat(digits, zeros);
    ReversedRepeat('0', n);
    ReversedSign(|digits|, negative, prec, width, f);
  }

  lemma ReversedSign(digits: nat, negative: bool, prec: nat, width: nat, f: Flags)
    ensures var sign := SignKept(digits, negative, prec, width, f); Reversed(sign) == sign
  {
  }

  // ---------- fields without '#' ----------

  /** What the caller has to look at: sign, precision and width, never the value. */
  predicate Fits(sign: string, prec: nat, width: nat, f: Flags) {
    f.left ||
    if f.zeropad then Max(width, |sign| + prec) <= NTOA_BUFFER
    else |sign| + prec <= NTOA_BUFFER || (sign == " " && prec == NTOA_BUFFER && width > NTOA_BUFFER)
  }

  /** The field is laid out as expected exactly if sign and zeros fit the digit buffer. (A blank for a sign that is
  missing does not show among other blanks.) */
  lemma FormattedIsLayout(digits: string, negative: bool, base: nat, prec: nat, width: nat, f: Flags)
    requires !f.hash && |digits| + |SignText(negative, f)| <= NTOA_BUFFER
    ensures Formatted(digits, negative, base, prec, width, f) == Layout(digits, negative, prec, width, f) <==>
            Fits(SignText(negative, f), prec, width, f)
  {
    hide *;
    if f.left {
      LeftLayout(digits, negative, base, prec, width, f);
    } else if f.zeropad {
      ZeroPaddedLayout(digits, negative, base, prec, width, f);
    } else {
      BlankPaddedLayout(digits, negative, base, prec, width, f);
    }
  }

  lemma LeftLayout(digits: string, negative: bool, base: nat, prec: nat, width: nat, f: Flags)
    requires !f.hash && |digits| + |SignText(negative, f)| <= NTOA_BUFFER && f.left
    ensures Formatted(digits, negative, base, prec, width, f) == Layout(digits, negative, prec, width, f)
    ensures Fits(SignText(negative, f), prec, width, f)
  {
    hide Reversed, Body, Repeat;
    BodyText(digits, negative, base, prec, width, f);
    var body := Body(digits, negative, base, prec, width, f);
    assert |body| == |Reversed(body)|;
    assert Repeat('0', 0 - |digits|) == [];
  }

  lemma ZeroPaddedLayout(digits: string, negative: bool, base: nat, prec: nat, width: nat, f: Flags)
    requires !f.hash && |digits| + |SignText(negative, f)| <= NTOA_BUFFER && !f.left && f.zeropad
    ensures Formatted(digits, negative, base, prec, width, f) == Layout(digits, negative, prec, width, f) <==>
            Fits(SignText(negative, f), prec, width, f)
  {
    hide Reversed, Body, Repeat, ZeroWidth, SignText;
    BodyText(digits, negative, base, prec, width, f);
    ZeroWidthFacts(negative, width, f);
  }

  lemma BlankPaddedLayout(digits: string, negative: bool, base: nat, prec: nat, width: nat, f: Flags)
    requires !f.hash && |digits| + |SignText(negative, f)| <= NTOA_BUFFER && !f.left && !f.zeropad
    ensures Formatted(digits, negative, base, prec, width, f) == Layout(digits, negative, prec, width, f) <==>
            Fits(SignText(negative, f), prec, width, f)
  {
    hide Formatted, Reversed, Repeat, SignText;
    var sign := SignText(negative, f);
    SignCases(negative, f);
    BlankPaddedText(digits, negative, base, prec, width, f);
    if NTOA_BUFFER < |sign| + prec <= width {
      SignMissing(Reversed(digits), sign, prec, width);
    }
  }

  lemma BlankPaddedText(digits: string, negative: bool, base: nat, prec: nat, width: nat, f: Flags)
    requires !f.hash && |digits| <= NTOA_BUFFER && !f.left && !f.zeropad
    ensures var sign := SignKept(|digits|, negative, prec, width, f);
            var zeros := Repeat('0', Min(prec, NTOA_BUFFER) - |digits|);
            Formatted(digits, negative, base, prec, width, f) ==
            Repeat(' ', width - |sign| - |zeros| - |digits|) + sign + zeros + Reversed(digits)
  {
    hide Reversed, Body, Repeat, SignKept;
    BodyText(digits, negative, base, prec, width, f);
    var body := Body(digits, negative, base, prec, width, f);
    assert |body| == |Reversed(body)|;
  }

  lemma SignCases(negative: bool, f: Flags)
    ensures SignText(negative, f) in {"-", "+", " ", ""}
  {
  }

  lemma ZeroWidthFacts(negative: bool, width: nat, f: Flags)
    ensures ZeroWidth(negative, width, f) ==
            if !f.left && f.zeropad && width > 0 then width - |SignText(negative, f)| else width
  {
  }

  /** A full buffer has no room for the sign. */
  lemma SignMissing(numeral: string, sign: string, prec: nat, width: nat)
    requires |numeral| <= NTOA_BUFFER < |sign| + prec <= width
    requires sign in {"-", "+", " ", ""}
    ensures Repeat(' ', width - NTOA_BUFFER) + Repeat('0', NTOA_BUFFER - |numeral|) + numeral ==
            Repeat(' ', width - |sign| - prec) + sign + Repeat('0', prec - |numeral|) + numeral
            <==> sign == " " && prec == NTOA_BUFFER
  {
    var s := Repeat(' ', width - NTOA_BUFFER) + Repeat('0', NTOA_BUFFER - |numeral|) + numeral;
    var t := Repeat(' ', width - |sign| - prec) + sign + Repeat('0', prec - |numeral|) + numeral;
    if sign == " " && prec == NTOA_BUFFER {
      assert Repeat(' ', width - |sign| - prec) + sign == Repeat(' ', width - NTOA_BUFFER);
    } else if sign == "-" || sign == "+" {
      var k := width - |sign| - prec;
      assert s[k] == ' ' && t[k] == sign[0];
    } else {
      var k := width - prec;
      assert s[k] == ' ' && t[k] == '0';
    }
  }

  /** The length of the text, for every precision and width. */
  lemma FormattedLength(digits: string, negative: bool, base: nat, prec: nat, width: nat, f: Flags)
    requires !f.hash && |digits| + |SignText(negative, f)| <= NTOA_BUFFER
    ensures var n := |SignKept(|digits|, negative, prec, width, f)| +
                     Max(|digits|, Min(Target(negative, prec, width, f), NTOA_BUFFER));
            |Formatted(digits, negative, base, prec, width, f)| == if f.left || !f.zeropad then Max(width, n) else n
  {
    hide Reversed, Body, Repeat, SignText, Target;
    BodyText(digits, negative, base, prec, width, f);
    var body := Body(digits, negative, base, prec, width, f);
    assert |body| == |Reversed(body)|;
  }

  lemma DigitsOf64Bits(value: nat, upper: bool)
    requires value < U64
    ensures |Digits(value, 10, upper, NTOA_BUFFER)| <= 20
  {
    hide Pow, Digits;
    PowersOf64Bits();
    DigitsAreFew(value, 10, upper, NTOA_BUFFER, 20);
  }

  /** The digits that a number is printed with: none for 0 with a precision. */
  function Numeral(value: nat, base: nat, f: Flags): string
    requires 2 <= base <= 16
  {
    if f.precision && value == 0 then [] else Digits(value, base, f.uppercase, NTOA_BUFFER)
  }

  lemma NumberText(value: nat, negative: bool, base: nat, prec: nat, width: nat, f: Flags)
    requires 2 <= base <= 16 && (f.hash ==> value == 0)
    ensures Number(value, negative, base, prec, width, f) ==
            Formatted(Numeral(value, base, f), negative, base, prec, width, f.(hash := false))
  {
    hide Formatted, Digits;
    assert !f.hash ==> f.(hash := false) == f;
  }

  /** Without '#' the length is the larger of the width and the sign with its digits, exactly if the zeros asked for
  fit the digit buffer or blanks make up for them. */
  lemma FormattedWidth(digits: string, negative: bool, base: nat, prec: nat, width: nat, f: Flags)
    requires !f.hash && |digits| + |SignText(negative, f)| <= NTOA_BUFFER
    ensures var sign := |SignText(negative, f)|;
            |Formatted(digits, negative, base, prec, width, f)| ==
            Max(width, sign + if f.left then |digits| else Max(|digits|, prec)) <==>
            f.left ||
            if f.zeropad then Max(width, sign + prec) <= NTOA_BUFFER
            else sign + prec <= NTOA_BUFFER || sign + prec <= width
  {
    hide Formatted, SignText, ZeroWidth;
    FormattedLength(digits, negative, base, prec, width, f);
    ZeroWidthFacts(negative, width, f);
    SignLength(negative, f);
  }

  lemma SignLength(negative: bool, f: Flags)
    ensures |SignText(negative, f)| <= 1
  {
  }

  /** The count advances by the larger of the width and the sign with its digits, under the same condition. */
  lemma FieldWidth(value: nat, negative: bool, prec: nat, width: nat, f: Flags)
    requires !f.hash && value < U64
    ensures var sign, digits := |SignText(negative, f)|, |Numeral(value, 10, f)|;
            digits <= 20 &&
            (|Number(value, negative, 10, prec, width, f)| ==
             Max(width, sign + if f.left then digits else Max(digits, prec)) <==>
             f.left ||
             if f.zeropad then Max(width, sign + prec) <= NTOA_BUFFER
             else sign + prec <= NTOA_BUFFER || sign + prec <= width)
  {
    hide Formatted, Number, SignText, Digits;
    DigitsOf64Bits(value, f.uppercase);
    SignLength(negative, f);
    NumberText(value, negative, 10, prec, width, f);
    FormattedWidth(Numeral(value, 10, f), negative, 10, prec, width, f);
  }

  /** Beyond the buffer zero padding stops short: 32 columns, whatever was asked for. */
  lemma WideZeroPaddingFallsShort(value: nat, negative: bool, prec: nat, width: nat, f: Flags)
    requires !f.hash && value < U64 && !f.left && f.zeropad
    requires Max(width, |SignText(negative, f)| + prec) > NTOA_BUFFER
    ensures |Number(value, negative, 10, prec, width, f)| == NTOA_BUFFER
  {
    hide Formatted, Number, SignText, Digits, ZeroWidth;
    DigitsOf64Bits(value, f.uppercase);
    SignLength(negative, f);
    NumberText(value, negative, 10, prec, width, f);
    ZeroWidthFacts(negative, width, f);
    FormattedLength(Numeral(value, 10, f), negative, 10, prec, width, f);
  }

  /** A negative number keeps its sign exactly if it is left-aligned, or the precision is below 32 and no zero
  padding beyond 32 columns is asked for. */
  lemma SignIsKept(value: nat, prec: nat, width: nat, f: Flags)
    requires !f.hash && value < U64
    ensures '-' in Number(value, true, 10, prec, width, f) <==>
            f.left || (prec < NTOA_BUFFER && (f.zeropad ==> width <= NTOA_BUFFER))
  {
    hide Formatted, Number, Digits, Decimal;
    var digits := Numeral(value, 10, f);
    DigitsOf64Bits(value, f.uppercase);
    DigitsAreDecimal(value, f.uppercase, NTOA_BUFFER);
    NothingIsDecimal();
    NumberText(value, true, 10, prec, width, f);
    SignInField(digits, prec, width, f);
  }

  /** So "%.32d" prints every negative number as if it were positive. */
  lemma SignIsLost(value: nat, prec: nat, width: nat, f: Flags)
    requires !f.hash && value < U64 && !f.left && !f.zeropad && prec >= NTOA_BUFFER
    ensures Number(value, true, 10, prec, width, f) == Number(value, false, 10, prec, width, f)
  {
    hide Number, Digits, Repeat, Reversed, Body;
    var digits := Numeral(value, 10, f);
    DigitsOf64Bits(value, f.uppercase);
    NumberText(value, true, 10, prec, width, f);
    NumberText(value, false, 10, prec, width, f);
    BodyBackwards(digits, true, 10, prec, width, f);
    BodyBackwards(digits, false, 10, prec, width, f);
  }

  lemma LostSign()
    ensures '-' !in IntegerText('d', Fields(NO_FLAGS.(precision := true), 0, 32, 0, 0), -7, true)
  {
    hide Number;
    SignIsKept(7, 32, 0, NO_FLAGS.(precision := true));
  }

  lemma NothingIsDecimal()
    ensures Decimal([])
  {
  }

  lemma SignInField(digits: string, prec: nat, width: nat, f: Flags)
    requires !f.hash && |digits| < NTOA_BUFFER && Decimal(digits)
    ensures '-' in Formatted(digits, true, 10, prec, width, f) <==> SignKept(|digits|, true, prec, width, f) == "-"
  {
    hide Body, Target, Reversed, Zeros;
    BodyText(digits, true, 10, prec, width, f);
    NoSignInDigits(digits);
    var sign, zeros := SignKept(|digits|, true, prec, width, f), Repeat('0', Zeros(|digits|, true, prec, width, f));
    var shown := Reversed(Body(digits, true, 10, prec, width, f));
    assert shown == sign + zeros + Reversed(digits);
    assert '-' !in zeros;
    if sign == "-" {
      assert shown[0] == '-';
    }
  }

  lemma {:induction false} NoSignInDigits(digits: string)
    requires Decimal(digits)
    ensures '-' !in Reversed(digits)
  {
    if digits != [] {
      NoSignInDigits(digits[1..]);
      assert IsDigit(digits[0]);
    }
  }

  // ---------- whole directives ----------

  function IntegerValue(c: char, n: int, f: Flags, charSigned: bool): int {
    if c == 'i' || c == 'd' then SignedValue(n, f, charSigned) else UnsignedValue(n, f)
  }

  /** Every integer directive, unless '#' is in effect: the argument is cut to its length; the digits denote its
  magnitude, in base 2 only the lower 32 bits of it; and sign, zeros and digits are laid out in the field exactly if
  they fit. */
  lemma IntegerDirective(c: char, r: Fields, n: int, charSigned: bool)
    requires IsInteger(c)
    requires var f := IntegerFlags(r.flags, c); f.hash ==> IntegerValue(c, n, f, charSigned) == 0
    ensures var f := IntegerFlags(r.flags, c);
            var value := IntegerValue(c, n, f, charSigned);
            var digits := Numeral(Abs(value), Base(c), f);
            Denoted(digits, Base(c)) == (if Base(c) == 2 then Abs(value) % U32 else Abs(value)) &&
            (IntegerText(c, r, n, charSigned) == Layout(digits, value < 0, r.prec, r.width, f) <==>
             Fits(SignText(value < 0, f), r.prec, r.width, f))
  {
    hide Number, Numeral, Layout, Denoted, Fits, SignText;
    var f := IntegerFlags(r.flags, c);
    var value := IntegerValue(c, n, f, charSigned);
    IntegerTextIsNumber(c, r, n, charSigned);
    NumberIsLayout(Abs(value), value < 0, Base(c), r.prec, r.width, f);
  }

  lemma IntegerTextIsNumber(c: char, r: Fields, n: int, charSigned: bool)
    requires IsInteger(c)
    ensures var f := IntegerFlags(r.flags, c);
            var value := IntegerValue(c, n, f, charSigned);
            IntegerText(c, r, n, charSigned) == Number(Abs(value), value < 0, Base(c), r.prec, r.width, f) &&
            Abs(value) < U64 && Base(c) in {2, 8, 10, 16} && (Base(c) == 10 || SignText(value < 0, f) == "")
  {
    hide Number;
  }

  lemma NumberIsLayout(value: nat, negative: bool, base: nat, prec: nat, width: nat, f: Flags)
    requires value < U64 && (f.hash ==> value == 0)
    requires base in {2, 8, 10, 16} && (base == 10 || SignText(negative, f) == "")
    ensures Denoted(Numeral(value, base, f), base) == if base == 2 then value % U32 else value
    ensures Number(value, negative, base, prec, width, f) ==
            Layout(Numeral(value, base, f), negative, prec, width, f) <==>
            Fits(SignText(negative, f), prec, width, f)
  {
    hide Formatted, Layout, Digits, Denoted, Number, Fits, SignText;
    var digits := Numeral(value, base, f);
    NumeralOf64Bits(value, base, f.uppercase);
    DigitsOf64Bits(value, f.uppercase);
    DenotedNothing(base);
    SignLength(negative, f);
    NumberText(value, negative, base, prec, width, f);
    LayoutIgnoresHash(digits, negative, prec, width, f);
    FormattedIsLayout(digits, negative, base, prec, width, f.(hash := false));
  }

  lemma DenotedNothing(base: nat)
    ensures Denoted([], base) == 0
  {
  }

  lemma LayoutIgnoresHash(digits: string, negative: bool, prec: nat, width: nat, f: Flags)
    ensures var g := f.(hash := false);
            Layout(digits, negative, prec, width, g) == Layout(digits, negative, prec, width, f) &&
            SignText(negative, g) == SignText(negative, f) &&
            forall sign :: Fits(sign, prec, width, g) == Fits(sign, prec, width, f)
  {
    hide Repeat, Reversed;
    assert SignText(negative, f.(hash := false)) == SignText(negative, f);
    hide SignText;
  }

  // ---------- '#' ----------

  /** '#' takes back the padding that its prefix replaces. It keeps every digit exactly when no precision was
  given, or the padded number misses the width, or there was enough padding to take back. */
  lemma HashKeepsDigits(digits: string, base: nat, prec: nat, width: nat, f: Flags)
    requires digits != []
    ensures var padded := LeadingZeros(digits, prec, width, f);
            digits <= HashDropped(padded, base, prec, width, f) <==>
            f.precision || (|padded| != prec && |padded| != width) ||
            |padded| - |digits| >= if base == 16 && |padded| > 1 then 2 else 1
  {
  }

  function Prefix(base: nat, f: Flags): string {
    if base == 16 then (if f.uppercase then "0X" else "0x") else if base == 2 then "0b" else "0"
  }

  /** What '#' keeps of the padded number. */
  function HashKept(digits: string, negative: bool, base: nat, prec: nat, width: nat, f: Flags): string {
    var w := ZeroWidth(negative, width, f);
    HashDropped(LeadingZeros(digits, prec, w, f), base, prec, w, f)
  }

  /** With '#' the field reads sign, prefix and what is kept of the padded number, exactly if they fit the buffer. */
  lemma HashLayout(digits: string, negative: bool, base: nat, prec: nat, width: nat, f: Flags)
    requires f.hash && base in {2, 8, 16} && |digits| <= NTOA_BUFFER
    ensures var sign, prefix := SignText(negative, f), Prefix(base, f);
            var kept := HashKept(digits, negative, base, prec, width, f);
            Reversed(Body(digits, negative, base, prec, width, f)) == sign + prefix + Reversed(kept) <==>
            |sign| + |prefix| + |kept| <= NTOA_BUFFER
  {
    hide Reversed, HashDropped, LeadingZeros;
    var sign, prefix, kept := SignText(negative, f), Prefix(base, f), HashKept(digits, negative, base, prec, width, f);
    var body := Body(digits, negative, base, prec, width, f);
    BodyFits(digits, negative, base, prec, width, f);
    assert |Reversed(body)| == |body|;
    if |sign| + |prefix| + |kept| <= NTOA_BUFFER {
      ReversedPrefix(base, f);
      SignReversed(negative, f);
      assert body == kept + Reversed(prefix) + sign;
      ReversedConcat(kept + Reversed(prefix), sign);
      ReversedConcat(kept, Reversed(prefix));
    }
  }

  lemma SignReversed(negative: bool, f: Flags)
    ensures Reversed(SignText(negative, f)) == SignText(negative, f)
  {
  }

  lemma ReversedPrefix(base: nat, f: Flags)
    ensures var p := Prefix(base, f); Reversed(Reversed(p)) == p && Reversed(p) == if |p| == 2 then [p[1], p[0]] else p
  {
    var p := Prefix(base, f);
    if |p| == 2 {
      assert p == [p[0], p[1]];
      assert p[1..][1..] == [] && Reversed(p[1..]) == [p[1]];
      assert Reversed(p) == [p[1], p[0]];
      var r := [p[1], p[0]];
      assert r[1..][1..] == [] && Reversed(r[1..]) == [p[0]];
    }
  }

  /** So "%#2x" of a number with two digits prints none. */
  lemma HashLosesDigits()
    ensures Number(0x12, false, 16, 0, 2, NO_FLAGS.(hash := true)) == "0x"
  {
    var f := NO_FLAGS.(hash := true);
    assert Digits(0x12, 16, false, NTOA_BUFFER) == "21";
    assert Body("21", false, 16, 0, 2, f) == "x0";
  }
}
