/** From the characters of a format to the text printed. */
module PrintfFormats {
  import opened Sequences
  import opened PrintfText
  import opened PrintfFacts
  import opened PrintfFields
  import opened Directives
  import Printf

  // ---------- a format piece by piece ----------

  const CONVERSIONS := "diuxXobfFeEgGcsp"

  /** What contains no '%' is printed as it stands and takes no argument. */
  lemma {:induction false} PlainText(fmt: string, va: nat -> Arg, p: nat, q: nat, a: nat, charSigned: bool,
                                     float: (char, Fields, Arg) -> string)
    requires p <= q <= |fmt| && Complete(fmt, va, p, a)
    requires forall k :: p <= k < q ==> fmt[k] != '%' && fmt[k] != '\0'
    ensures Complete(fmt, va, q, a)
    ensures Text(fmt, va, p, a, charSigned, float) == fmt[p..q] + Text(fmt, va, q, a, charSigned, float)
    decreases q - p
  {
    hide Text, Complete;
    if p < q {
      PlainCharacter(fmt, va, p, a, charSigned, float);
      PlainText(fmt, va, p + 1, q, a, charSigned, float);
      var rest := Text(fmt, va, q, a, charSigned, float);
      assert fmt[p..q] + rest == [fmt[p]] + (fmt[p + 1..q] + rest);
    }
  }

  lemma PlainCharacter(fmt: string, va: nat -> Arg, p: nat, a: nat, charSigned: bool,
                       float: (char, Fields, Arg) -> string)
    requires p < |fmt| && Complete(fmt, va, p, a) && fmt[p] != '%' && fmt[p] != '\0'
    ensures Complete(fmt, va, p + 1, a)
    ensures Text(fmt, va, p, a, charSigned, float) == [fmt[p]] + Text(fmt, va, p + 1, a, charSigned, float)
  {
  }

  /** A NUL outside a directive ends the text. */
  lemma NulEnds(fmt: string, va: nat -> Arg, p: nat, a: nat, charSigned: bool, float: (char, Fields, Arg) -> string)
    requires p < |fmt| && fmt[p] == '\0'
    ensures Complete(fmt, va, p, a) && Text(fmt, va, p, a, charSigned, float) == ""
  {
  }

  /** A directive prints its own text with the argument it takes, and reading goes on behind its specifier. */
  lemma DirectiveInText(fmt: string, va: nat -> Arg, p: nat, a: nat, charSigned: bool,
                        float: (char, Fields, Arg) -> string) returns (r: Fields, ends: Ends, next: nat)
    requires p < |fmt| && fmt[p] == '%' && Complete(fmt, va, p, a)
    ensures FieldsRead(fmt, va, p + 1, a, r, ends) && r.p < |fmt|
    ensures next == if fmt[r.p] in CONVERSIONS then r.a + 1 else r.a
    ensures Complete(fmt, va, r.p + 1, next)
    ensures Text(fmt, va, p, a, charSigned, float) ==
            DirectiveText(fmt[r.p], r, va(r.a), charSigned, float) +
            Text(fmt, va, r.p + 1, next, charSigned, float)
  {
    hide ParseFields, DirectiveText, FieldsRead, TakesArgument, CONVERSIONS;
    r := ParseFields(fmt, va, p + 1, a);
    ends := FieldsAreRead(fmt, va, p + 1, a);
    var (p', a') := After(fmt, va, p, a);
    ConversionsTakeOne(fmt[r.p]);
    next := a';
  }

  lemma ConversionsTakeOne(c: char)
    ensures TakesArgument(c) <==> c in CONVERSIONS
  {
  }

  // ---------- integers ----------

  /** What each specifier makes of the flags: signs for d and i only, no prefix in base 10, capitals for X, no zero
  padding with a precision. The others stay. */
  ghost predicate IntegerFlagsFor(f: Flags, g: Flags, c: char) {
    (g.plus <==> f.plus && (c == 'd' || c == 'i')) && (g.space <==> f.space && (c == 'd' || c == 'i')) &&
    (g.hash <==> f.hash && (c == 'x' || c == 'X' || c == 'o' || c == 'b')) &&
    (g.uppercase <==> f.uppercase || c == 'X') && (g.zeropad <==> f.zeropad && !f.precision) &&
    g.left == f.left && g.precision == f.precision && g.isChar == f.isChar && g.isShort == f.isShort &&
    g.isLong == f.isLong && g.isLongLong == f.isLongLong
  }

  lemma PrefixFlags(f: Flags, c: char)
    ensures WithoutPrefix(f, c) == f.(hash := f.hash && (c == 'x' || c == 'X' || c == 'o' || c == 'b'))
  {
  }

  lemma CapitalFlags(f: Flags, c: char)
    ensures WithCapitals(f, c) == f.(uppercase := f.uppercase || c == 'X')
  {
  }

  lemma SignFlags(f: Flags, c: char)
    ensures WithoutSigns(f, c) ==
            f.(plus := f.plus && (c == 'd' || c == 'i'), space := f.space && (c == 'd' || c == 'i'))
  {
  }

  lemma ZeroFlags(f: Flags)
    ensures WithoutZeros(f) == f.(zeropad := f.zeropad && !f.precision)
  {
  }

  lemma IntegerFlagsAre(f: Flags, c: char)
    ensures IntegerFlagsFor(f, IntegerFlags(f, c), c)
  {
    hide WithoutPrefix, WithCapitals, WithoutSigns, WithoutZeros;
    var f1 := WithoutPrefix(f, c);
    var f2 := WithCapitals(f1, c);
    PrefixFlags(f, c);
    CapitalFlags(f1, c);
    SignFlags(f2, c);
    ZeroFlags(WithoutSigns(f2, c));
  }

  /** v is n cut to so many bits, as a signed or an unsigned number. */
  ghost predicate IsCut(n: int, v: int, size: int, signed: bool)
    requires size > 0
  {
    v % size == n % size && if signed then -size <= 2 * v < size else 0 <= v < size
  }

  /** long and long long have 64 bits. The value of hh is signed as plain char is. */
  lemma IntegerValueIs(c: char, n: int, f: Flags, charSigned: bool)
    ensures var v, signed := IntegerValue(c, n, f, charSigned), c == 'd' || c == 'i';
            if f.isLong || f.isLongLong then IsCut(n, v, 0x1_0000_0000_0000_0000, signed)
            else if f.isChar then IsCut(n, v, 0x100, signed && charSigned)
            else if f.isShort then IsCut(n, v, 0x1_0000, signed)
            else IsCut(n, v, 0x1_0000_0000, signed)
  {
  }

  function Spaces(n: int): (s: string)
    ensures |s| == Max(0, n) && forall k :: 0 <= k < |s| ==> s[k] == ' '
  {
    Repeat(' ', n)
  }

  function ZeroChars(n: int): (s: string)
    ensures |s| == Max(0, n) && forall k :: 0 <= k < |s| ==> s[k] == '0'
  {
    Repeat('0', n)
  }

  /** A number with its sign in a field: left-aligned, right-aligned, or filled with zeros up to the 32 digits of the
  buffer, which then leave no room for a sign. */
  function Field(flag: string, sign: string, digits: string, width: nat): string {
    var n := width - |sign| - |digits|;
    if flag == "-" then sign + digits + Spaces(n)
    else if flag == "0" then if width <= 32 then sign + ZeroChars(n) + digits else ZeroChars(32 - |digits|) + digits
    else Spaces(n) + sign + digits
  }

  /** How many zeros the buffer holds, and whether it has room for the sign. */
  lemma BufferOfField(digits: nat, negative: bool, width: nat, f: Flags)
    requires !f.plus && !f.space && digits <= NTOA_BUFFER && (negative ==> digits < NTOA_BUFFER)
    ensures var sign := if negative then "-" else "";
            var zeroed := f.zeropad && !f.left;
            SignKept(digits, negative, 0, width, f) == (if zeroed && width > 32 then "" else sign) &&
            Repeat('0', Zeros(digits, negative, 0, width, f)) ==
            ZeroChars(if !zeroed then 0 else if width > 32 then 32 - digits else width - |sign| - digits)
  {
  }

  lemma ColumnsOfField(flag: string, sign: string, digits: string, width: nat, w: nat, f: Flags, body: string)
    requires flag in {"", "0", "-"} && f.left == (flag == "-") && f.zeropad == (flag == "0")
    requires |digits| <= 32 && (sign != "" ==> |sign| == 1) && (flag != "0" ==> w == width)
    requires Reversed(body) ==
             (if flag == "0" && width > 32 then "" else sign) +
             ZeroChars(if flag != "0" then 0 else if width > 32 then 32 - |digits| else width - |sign| - |digits|) +
             digits
    ensures Columns(body, w, f) == Field(flag, sign, digits, width)
  {
    hide Reversed;
  }

  lemma {:induction false} NumberField(flag: string, value: nat, negative: bool, base: nat, width: nat, f: Flags)
    returns (digits: string)
    requires flag in {"", "0", "-"} && value < U64 && base in {2, 8, 10, 16} && (base == 2 ==> value < U32)
    requires f.left == (flag == "-") && f.zeropad == (flag == "0") && (negative ==> base == 10)
    requires !f.plus && !f.space && !f.hash && !f.precision
    ensures IsNumeral(digits, base, f.uppercase, value)
    ensures Number(value, negative, base, 0, width, f) == Field(flag, if negative then "-" else "", digits, width)
    ensures |digits| <= if base == 10 then 20 else 32
  {
    hide Digits, Reversed, IsNumeral, Repeat, Body, Columns, Field, ZeroChars, SignKept, Zeros, Pow;
    var ds := Digits(value, base, f.uppercase, NTOA_BUFFER);
    DigitsAreNumeral(value, base, f.uppercase);
    digits := Reversed(ds);
    DigitsOf64Bits(value, f.uppercase);
    BodyText(ds, negative, base, 0, width, f);
    BufferOfField(|ds|, negative, width, f);
    ColumnsOfField(flag, if negative then "-" else "", digits, width, ZeroWidth(negative, width, f), f,
                   Body(ds, negative, base, 0, width, f));
  }

  // ---------- one integer directive, from its characters ----------

  /** "%" flag width specifier, and behind the NUL whatever the memory holds. */
  function Format(flag: string, width: string, c: char, rest: string): string {
    "%" + flag + width + [c] + "\0" + rest
  }

  predicate IsWidth(width: string) {
    (forall k :: 0 <= k < |width| ==> width[k] in DIGIT_CHARS) && (width != "" ==> width[0] != '0')
  }

  function WidthOf(width: string): nat { Denoted(Reversed(width), 10) % U32 }

  lemma FormatAt(flag: string, width: string, c: char, rest: string)
    ensures var fmt, n := Format(flag, width, c, rest), |flag| + |width|;
            |fmt| >= n + 3 && fmt[0] == '%' && fmt[1..1 + |flag|] == flag && fmt[1 + |flag|..1 + n] == width &&
            fmt[1 + n] == c && fmt[2 + n] == '\0' && (forall k :: 0 <= k < |width| ==> fmt[1 + |flag| + k] == width[k])
  {
  }

  lemma ParseOneFlag(fmt: string, flag: string)
    requires flag in {"", "0", "-"} && 1 + |flag| < |fmt| && fmt[1..1 + |flag|] == flag && !IsFlag(fmt[1 + |flag|])
    ensures ParseFlags(fmt, 1, NO_FLAGS) == (NO_FLAGS.(left := flag == "-", zeropad := flag == "0"), 1 + |flag|)
  {
  }

  lemma WidthDigits(width: string, k: nat)
    requires IsWidth(width) && k < |width|
    ensures IsDigit(width[k]) && (k == 0 ==> !IsFlag(width[k]))
  {
  }

  lemma ParseWidthDigits(fmt: string, va: nat -> Arg, r: Fields, width: string)
    requires r.p + |width| < |fmt| && fmt[r.p..r.p + |width|] == width && IsWidth(width)
    requires !IsDigit(fmt[r.p + |width|]) && fmt[r.p + |width|] != '*' && r.width == 0
    ensures ParseWidth(fmt, va, r) == r.(width := WidthOf(width), p := r.p + |width|)
  {
    var ds := Reversed(width);
    ReversedTwice(width);
    forall k | 0 <= k < |width|
      ensures IsDigit(width[k])
    {
      WidthDigits(width, k);
    }
    ReversedDecimal(width);
    ParseReversed(fmt, r.p, 0, ds);
    hide ParseNumber, Reversed, Pow, IsWidth;
    if width == "" {
      assert fmt[r.p..r.p] == "";
      EmptyWidth();
    } else {
      assert fmt[r.p] == fmt[r.p..r.p + |width|][0];
    }
  }

  lemma EmptyWidth()
    ensures WidthOf("") == 0
  {
  }

  lemma ParseFormat(fmt: string, va: nat -> Arg, flag: string, width: string, c: char, rest: string)
    requires flag in {"", "0", "-"} && IsWidth(width) && IsInteger(c) && fmt == Format(flag, width, c, rest)
    ensures ParseFields(fmt, va, 1, 0) ==
            Fields(NO_FLAGS.(left := flag == "-", zeropad := flag == "0"), WidthOf(width), 0, 1 + |flag| + |width|, 0)
    ensures 2 + |flag| + |width| < |fmt| && fmt[1 + |flag| + |width|] == c && fmt[2 + |flag| + |width|] == '\0'
    ensures fmt[0] == '%'
  {
    FormatAt(flag, width, c, rest);
    var p := 1 + |flag|;
    if width != "" {
      WidthDigits(width, 0);
      assert fmt[p + 0] == width[0];
    }
    hide Format, WidthOf, IsWidth;
    ParseOneFlag(fmt, flag);
    var r := Fields(NO_FLAGS.(left := flag == "-", zeropad := flag == "0"), 0, 0, p, 0);
    ParseWidthDigits(fmt, va, r, width);
    hide ParseFlags, ParseWidth;
  }

  /** "%d" to "%b" with '0' or '-' or neither and any width: the text is the numeral of the argument, cut to 32 bits,
  with its sign, in its field. */
  lemma IntegerFormat(flag: string, width: string, c: char, rest: string, va: nat -> Arg, charSigned: bool,
                      float: (char, Fields, Arg) -> string) returns (digits: string, value: int)
    requires flag in {"", "0", "-"} && IsWidth(width) && c in "diuxXob"
    ensures IsCut(va(0).number, value, 0x1_0000_0000, c in "di")
    ensures IsNumeral(digits, if c in "xX" then 16 else if c == 'o' then 8 else if c == 'b' then 2 else 10, c == 'X',
                      if value < 0 then -value else value)
    ensures var fmt := Format(flag, width, c, rest);
            Complete(fmt, va, 0, 0) &&
            Text(fmt, va, 0, 0, charSigned, float) ==
            Field(flag, if value < 0 then "-" else "", digits, WidthOf(width))
    ensures |digits| <= if value < 0 then 20 else 32
  {
    var fmt := Format(flag, width, c, rest);
    var f := NO_FLAGS.(left := flag == "-", zeropad := flag == "0");
    ParseFormat(fmt, va, flag, width, c, rest);
    var r := ParseFields(fmt, va, 1, 0);
    OneDirective(fmt, va, charSigned, float);
    value, digits := IntegerWithFlags(flag, c, r, va(0).number, charSigned);
    hide *;
  }

  lemma OneDirective(fmt: string, va: nat -> Arg, charSigned: bool, float: (char, Fields, Arg) -> string)
    requires |fmt| > 0 && fmt[0] == '%'
    requires var r := ParseFields(fmt, va, 1, 0); r.p + 1 < |fmt| && fmt[r.p + 1] == '\0' && IsInteger(fmt[r.p])
    ensures var r := ParseFields(fmt, va, 1, 0);
            Complete(fmt, va, 0, 0) &&
            Text(fmt, va, 0, 0, charSigned, float) == IntegerText(fmt[r.p], r, va(r.a).number, charSigned)
  {
    hide ParseFields, IntegerText;
    var (p, a) := After(fmt, va, 0, 0);
    NulEnds(fmt, va, p, a, charSigned, float);
  }

  lemma IntegerWithFlags(flag: string, c: char, r: Fields, n: int, charSigned: bool)
    returns (value: int, digits: string)
    requires flag in {"", "0", "-"} && IsInteger(c) && r.prec == 0
    requires r.flags == NO_FLAGS.(left := flag == "-", zeropad := flag == "0")
    ensures IsCut(n, value, 0x1_0000_0000, c == 'd' || c == 'i')
    ensures IsNumeral(digits, if c == 'x' || c == 'X' then 16 else if c == 'o' then 8 else if c == 'b' then 2 else 10,
                      c == 'X', if value < 0 then -value else value)
    ensures IntegerText(c, r, n, charSigned) == Field(flag, if value < 0 then "-" else "", digits, r.width)
    ensures |digits| <= if value < 0 then 20 else 32
  {
    var f := IntegerFlags(r.flags, c);
    IntegerFlagsAre(r.flags, c);
    hide IntegerFlags;
    value := IntegerValue(c, n, f, charSigned);
    IntegerValueIs(c, n, f, charSigned);
    IntegerTextIsNumber(c, r, n, charSigned);
    hide Number, IntegerText, IntegerValue, Field, IsNumeral;
    digits := NumberField(flag, Abs(value), value < 0, Base(c), r.width, f);
  }

  /** What vsnprintf stores for it in a buffer of sufficient size: the field and a NUL. */
  method SnprintfInteger(buffer: array<char>, flag: string, width: string, c: char, rest: string, va: nat -> Arg,
                         charSigned: bool, float: (char, Fields, Arg) -> string)
    returns (ret: int, ghost digits: string, ghost value: int)
    requires flag in {"", "0", "-"} && IsWidth(width) && c in "diuxXob"
    requires Max(32, WidthOf(width)) < buffer.Length < U64
    modifies buffer
    ensures IsCut(va(0).number, value, 0x1_0000_0000, c in "di")
    ensures IsNumeral(digits, if c in "xX" then 16 else if c == 'o' then 8 else if c == 'b' then 2 else 10, c == 'X',
                      if value < 0 then -value else value)
    ensures var text := Field(flag, if value < 0 then "-" else "", digits, WidthOf(width));
            (|text| < 0x8000_0000 ==> ret == |text|) &&
            |text| < buffer.Length && buffer[..|text|] == text && buffer[|text|] == '\0' &&
            buffer[|text| + 1..] == old(buffer[|text| + 1..])
  {
    hide Text, Complete, Field, WidthOf, IsWidth, IsNumeral, Format, IsCut;
    digits, value := IntegerFormat(flag, width, c, rest, va, charSigned, float);
    FieldLength(flag, if value < 0 then "-" else "", digits, WidthOf(width));
    var fmt := Format(flag, width, c, rest);
    ret := Printf.Vsnprintf(Printf.BufferSink(buffer, buffer.Length), fmt, va, charSigned, float);
  }

  lemma FieldLength(flag: string, sign: string, digits: string, width: nat)
    requires |sign| + |digits| <= 32
    ensures |Field(flag, sign, digits, width)| <= Max(32, width)
  {
  }

  /** "%04x" of 31, with which the benchmark prints its CRCs. */
  lemma FourHexDigits(va: nat -> Arg, charSigned: bool, float: (char, Fields, Arg) -> string)
    requires va(0).number == 31
    ensures Complete("%04x\0", va, 0, 0) && Text("%04x\0", va, 0, 0, charSigned, float) == "001f"
  {
    var digits, value := IntegerFormat("0", "4", 'x', "", va, charSigned, float);
    CutOf31(va(0).number, value);
    OneAndF();
    NumeralUnique(digits, "1f", 16, false, 31);
    WidthFour();
    FieldOfFour();
    FormatOfFour();
    hide *;
  }

  lemma CutOf31(n: int, value: int)
    requires n == 31 && IsCut(n, value, 0x1_0000_0000, false)
    ensures value == 31
  {
  }

  lemma FormatOfFour()
    ensures Format("0", "4", 'x', "") == "%04x\0"
  {
  }

  lemma FieldOfFour()
    ensures Field("0", "", "1f", 4) == "001f"
  {
  }

  lemma OneAndF()
    ensures IsNumeral("1f", 16, false, 31)
  {
    assert LOWER_DIGITS[..16][1] == '1' && LOWER_DIGITS[..16][15] == 'f';
    assert Reversed("1f") == "f1";
    assert Denoted("f1", 16) == 15 + 16 * Denoted("1", 16);
  }

  lemma WidthFour()
    ensures WidthOf("4") == 4
  {
  }

  // ---------- the other directives ----------

  /** What is shown is padded with blanks to the width, on the left or on the right of it. */
  ghost predicate IsPadded(text: string, shown: string, width: nat, left: bool) {
    var n := Max(0, width - |shown|);
    |text| == n + |shown| &&
    if left then text[..|shown|] == shown && AllBlank(text[|shown|..]) else text[n..] == shown && AllBlank(text[..n])
  }

  predicate AllBlank(s: string) { forall k :: 0 <= k < |s| ==> s[k] == ' ' }

  /** %c prints the low byte of its argument. */
  lemma CharacterDirective(r: Fields, arg: Arg, charSigned: bool, float: (char, Fields, Arg) -> string, b: bv8)
    requires arg.number % 0x100 == b as int
    ensures IsPadded(DirectiveText('c', r, arg, charSigned, float), [b as char], r.width, r.flags.left)
  {
  }

  /** %s prints the string, with a precision no more than its first characters. The field has its width, unless the
  length of a string of 2^32 characters or more overflows. */
  lemma StringDirective(r: Fields, arg: Arg, charSigned: bool, float: (char, Fields, Arg) -> string)
    requires (r.flags.precision || r.prec == 0) && r.prec < U32 && r.width < U32
    ensures var s := arg.text;
            var shown := if r.flags.precision && r.prec < |s| then s[..r.prec] else s;
            IsPadded(DirectiveText('s', r, arg, charSigned, float), shown, r.width, r.flags.left) <==>
            r.flags.precision || |s| < 0x1_0000_0000 || r.width <= Min(|s|, U64 - 1) % 0x1_0000_0000
  {
  }

  lemma StringBlanks(s: string, r: Fields)
    requires (r.flags.precision || r.prec == 0) && r.prec < U32 && r.width < U32
    ensures Max(0, r.width - StringLength(s, r)) == Max(0, r.width - |StringText(s, r)|) <==>
            r.flags.precision || |s| < 0x1_0000_0000 || r.width <= Min(|s|, U64 - 1) % 0x1_0000_0000
  {
  }

  /** %p without flags prints an address with 16 hexadecimal digits in capitals. */
  lemma PointerDirective(r: Fields, arg: Arg, charSigned: bool, float: (char, Fields, Arg) -> string)
    returns (digits: string)
    requires !r.flags.plus && !r.flags.space && !r.flags.hash && !r.flags.left && !r.flags.precision && r.prec == 0
    ensures IsNumeral(digits, 16, true, AsUnsigned(arg.number, 0x1_0000_0000_0000_0000))
    ensures DirectiveText('p', r, arg, charSigned, float) == ZeroChars(16 - |digits|) + digits
  {
    var n := AsUnsigned(arg.number, U64);
    digits := NumberField("0", n, false, 16, 16, r.flags.(zeropad := true, uppercase := true));
    hide Number;
  }

  /** What is no specifier stands for itself, as the second '%' of "%%" does. */
  lemma OtherDirective(c: char, r: Fields, arg: Arg, charSigned: bool, float: (char, Fields, Arg) -> string)
    ensures c !in CONVERSIONS ==> DirectiveText(c, r, arg, charSigned, float) == [c]
    ensures c in "fFeEgG" ==> DirectiveText(c, r, arg, charSigned, float) == float(c, r, arg)
    ensures c in "diuxXob" ==> DirectiveText(c, r, arg, charSigned, float) == IntegerText(c, r, arg.number, charSigned)
  {
  }
}
