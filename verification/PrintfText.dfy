/** What the tiny printf prints: the text of a directive, and of a whole format. */
module PrintfText {
  import opened Sequences

  const NTOA_BUFFER: nat := 32
  const U32: nat := 0x1_0000_0000
  const U64: nat := 0x1_0000_0000_0000_0000

  datatype Flags = Flags(zeropad: bool, left: bool, plus: bool, space: bool, hash: bool, uppercase: bool,
                         isChar: bool, isShort: bool, isLong: bool, isLongLong: bool, precision: bool)

  const NO_FLAGS := Flags(false, false, false, false, false, false, false, false, false, false, false)

  // ---------- numbers ----------

  function Pow(base: nat, n: nat): nat {
    if n == 0 then 1 else base * Pow(base, n - 1)
  }

  function DigitChar(d: nat, upper: bool): char
    requires d < 16
  {
    if d < 10 then '0' + d as char else (if upper then 'A' else 'a') + (d - 10) as char
  }

  function LowDigit(value: nat, base: nat, upper: bool): char
    requires 2 <= base <= 16
  {
    DigitChar(value % base, upper)
  }

  function Rest(value: nat, base: nat): nat
    requires 2 <= base
  {
    value / base
  }

  /** The digits that the conversion loop stores, least significant first, at most n of them. */
  function Digits(value: nat, base: nat, upper: bool, n: nat): (ds: seq<char>)
    requires 2 <= base <= 16 && n > 0
    ensures 1 <= |ds| <= n
    decreases n
  {
    [LowDigit(value, base, upper)] +
    if Rest(value, base) != 0 && n > 1 then Digits(Rest(value, base), base, upper, n - 1) else []
  }

  lemma DigitsUnfold(value: nat, base: nat, upper: bool, n: nat)
    requires 2 <= base <= 16 && n > 0
    ensures Digits(value, base, upper, n) ==
            [LowDigit(value, base, upper)] +
            if Rest(value, base) != 0 && n > 1 then Digits(Rest(value, base), base, upper, n - 1) else []
  {
  }

  function Repeat(c: char, n: int): (s: string)
    ensures |s| == if n > 0 then n else 0
  {
    if n <= 0 then [] else seq(n, _ => c)
  }

  function Min(a: nat, b: nat): nat { if a < b then a else b }

  /** s extended with '0' to length n; the buffer ends at NTOA_BUFFER. */
  function ZeroTo(s: string, n: nat): (t: string)
    ensures |t| == if |s| < Min(n, NTOA_BUFFER) then Min(n, NTOA_BUFFER) else |s|
    ensures |s| <= NTOA_BUFFER ==> |t| <= NTOA_BUFFER
  {
    s + Repeat('0', Min(n, NTOA_BUFFER) - |s|)
  }

  predicate Signed(negative: bool, f: Flags) { negative || f.plus || f.space }

  /** The sign takes a column of zero padding. */
  function ZeroWidth(negative: bool, width: nat, f: Flags): nat {
    if !f.left && width > 0 && f.zeropad && Signed(negative, f) then width - 1 else width
  }

  function LeadingZeros(digits: string, prec: nat, width: nat, f: Flags): string {
    if f.left then digits
    else if f.zeropad then ZeroTo(ZeroTo(digits, prec), width)
    else ZeroTo(digits, prec)
  }

  /** '#': digits that padding put where the prefix goes are taken back, then the prefix is added. */
  function HashDropped(s: string, base: nat, prec: nat, width: nat, f: Flags): string {
    if !f.precision && s != [] && (|s| == prec || |s| == width)
    then if |s| > 1 && base == 16 then s[..|s| - 2] else s[..|s| - 1]
    else s
  }

  function Room(s: string, c: char): string { if |s| < NTOA_BUFFER then s + [c] else s }

  function HashPrefixed(s: string, base: nat, f: Flags): string {
    var t := if base == 16 then Room(s, if f.uppercase then 'X' else 'x') else if base == 2 then Room(s, 'b') else s;
    Room(t, '0')
  }

  function WithSign(s: string, negative: bool, f: Flags): string {
    if negative then Room(s, '-') else if f.plus then Room(s, '+') else if f.space then Room(s, ' ') else s
  }

  /** The buffer of _ntoa_format when it is handed to _out_rev. */
  function Body(digits: string, negative: bool, base: nat, prec: nat, width: nat, f: Flags): string {
    var w := ZeroWidth(negative, width, f);
    var padded := LeadingZeros(digits, prec, w, f);
    var hashed := if f.hash then HashPrefixed(HashDropped(padded, base, prec, w, f), base, f) else padded;
    WithSign(hashed, negative, f)
  }

  /** What _out_rev prints. */
  function Columns(body: string, width: nat, f: Flags): string {
    (if !f.left && !f.zeropad then Repeat(' ', width - |body|) else []) + Reversed(body) +
    (if f.left then Repeat(' ', width - |body|) else [])
  }

  function Formatted(digits: string, negative: bool, base: nat, prec: nat, width: nat, f: Flags): string {
    Columns(Body(digits, negative, base, prec, width, f), ZeroWidth(negative, width, f), f)
  }

  /** The text of _ntoa_long and _ntoa_long_long. */
  function Number(value: nat, negative: bool, base: nat, prec: nat, width: nat, f: Flags): string
    requires 2 <= base <= 16
  {
    var g := if value == 0 then f.(hash := false) else f;
    var digits := if !g.precision || value != 0 then Digits(value, base, g.uppercase, NTOA_BUFFER) else [];
    Formatted(digits, negative, base, prec, width, g)
  }

  // ---------- arguments ----------

  type CString = s: string | forall i :: 0 <= i < |s| ==> s[i] != '\0' witness ""

  /** One variable argument: the bits of a number, or a string. */
  datatype Arg = Arg(number: int, text: CString)

  function AsUnsigned(n: int, size: nat): nat
    requires size > 0
  {
    n % size
  }

  /** Two's complement. */
  function AsSigned(n: int, size: nat): int
    requires size > 0
  {
    var u := n % size;
    if u < size / 2 then u else u - size
  }

  function Abs(n: int): nat { if n > 0 then n else 0 - n }

  // ---------- a directive ----------

  function At(fmt: string, f: nat): char { if f < |fmt| then fmt[f] else '\0' }

  predicate IsDigit(c: char) { '0' <= c <= '9' }

  predicate IsFlag(c: char) { c == '0' || c == '-' || c == '+' || c == ' ' || c == '#' }

  function WithFlag(f: Flags, c: char): Flags {
    if c == '0' then f.(zeropad := true)
    else if c == '-' then f.(left := true)
    else if c == '+' then f.(plus := true)
    else if c == ' ' then f.(space := true)
    else f.(hash := true)
  }

  /** The flags from position p on, and where they end. */
  function ParseFlags(fmt: string, p: nat, f: Flags): (r: (Flags, nat))
    requires p <= |fmt|
    ensures p <= r.1 <= |fmt|
    decreases |fmt| - p
  {
    if IsFlag(At(fmt, p)) then ParseFlags(fmt, p + 1, WithFlag(f, fmt[p])) else (f, p)
  }

  function Wrap32(n: nat): nat { n % U32 }

  /** _atoi: arithmetic of unsigned int. */
  function ParseNumber(fmt: string, p: nat, i: nat): (r: (nat, nat))
    requires p <= |fmt|
    ensures p <= r.1 <= |fmt|
    decreases |fmt| - p
  {
    if IsDigit(At(fmt, p)) then ParseNumber(fmt, p + 1, Wrap32(i * 10 + (fmt[p] - '0') as nat)) else (i, p)
  }

  /** The fields of a directive before its specifier; p is the specifier's position and a the
  number of arguments used. */
  datatype Fields = Fields(flags: Flags, width: nat, prec: nat, p: nat, a: nat)

  function ParseWidth(fmt: string, va: nat -> Arg, r: Fields): (r': Fields)
    requires r.p <= |fmt|
    ensures r.p <= r'.p <= |fmt| && r'.prec == r.prec
  {
    if IsDigit(At(fmt, r.p)) then
      var (n, p) := ParseNumber(fmt, r.p, 0);
      r.(width := n, p := p)
    else if At(fmt, r.p) == '*' then
      var w := AsSigned(va(r.a).number, U32);
      if w < 0 then r.(flags := r.flags.(left := true), width := -w, p := r.p + 1, a := r.a + 1)
      else r.(width := w, p := r.p + 1, a := r.a + 1)
    else r
  }

  function ParsePrecision(fmt: string, va: nat -> Arg, r: Fields): (r': Fields)
    requires r.p <= |fmt|
    ensures r.p <= r'.p <= |fmt|
    ensures r'.flags.precision || r'.prec == r.prec
  {
    if At(fmt, r.p) != '.' then r
    else
      var q := r.(flags := r.flags.(precision := true), p := r.p + 1);
      if IsDigit(At(fmt, q.p)) then
        var (n, p) := ParseNumber(fmt, q.p, 0);
        q.(prec := n, p := p)
      else if At(fmt, q.p) == '*' then
        var n := AsSigned(va(q.a).number, U32);
        q.(prec := if n > 0 then n else 0, p := q.p + 1, a := q.a + 1)
      else q
  }

  /** ptrdiff_t, intmax_t and size_t are as wide as long. */
  function ParseLength(fmt: string, r: Fields): (r': Fields)
    requires r.p <= |fmt|
    ensures r.p <= r'.p <= |fmt|
    ensures r'.flags.precision == r.flags.precision && r'.prec == r.prec
  {
    var c := At(fmt, r.p);
    if c == 'l' then
      if At(fmt, r.p + 1) == 'l' then r.(flags := r.flags.(isLong := true, isLongLong := true), p := r.p + 2)
      else r.(flags := r.flags.(isLong := true), p := r.p + 1)
    else if c == 'h' then
      if At(fmt, r.p + 1) == 'h' then r.(flags := r.flags.(isShort := true, isChar := true), p := r.p + 2)
      else r.(flags := r.flags.(isShort := true), p := r.p + 1)
    else if c == 't' || c == 'j' || c == 'z' then r.(flags := r.flags.(isLong := true), p := r.p + 1)
    else r
  }

  function ParseFields(fmt: string, va: nat -> Arg, p: nat, a: nat): (r: Fields)
    requires p <= |fmt|
    ensures p <= r.p <= |fmt|
    ensures r.flags.precision || r.prec == 0
  {
    var (flags, p') := ParseFlags(fmt, p, NO_FLAGS);
    ParseLength(fmt, ParsePrecision(fmt, va, ParseWidth(fmt, va, Fields(flags, 0, 0, p', a))))
  }

  predicate IsInteger(c: char) { c == 'd' || c == 'i' || c == 'u' || c == 'x' || c == 'X' || c == 'o' || c == 'b' }

  predicate IsFloat(c: char) { c == 'f' || c == 'F' || c == 'e' || c == 'E' || c == 'g' || c == 'G' }

  function Base(c: char): nat {
    if c == 'x' || c == 'X' then 16 else if c == 'o' then 8 else if c == 'b' then 2 else 10
  }

  /** No '#' in base 10. */
  function WithoutPrefix(f: Flags, c: char): Flags { if Base(c) == 10 then f.(hash := false) else f }

  function WithCapitals(f: Flags, c: char): Flags { if c == 'X' then f.(uppercase := true) else f }

  /** '+' and ' ' are for signed numbers. */
  function WithoutSigns(f: Flags, c: char): Flags {
    if c != 'i' && c != 'd' then f.(plus := false, space := false) else f
  }

  /** A precision takes the place of '0'. */
  function WithoutZeros(f: Flags): Flags { if f.precision then f.(zeropad := false) else f }

  /** The flags that an integer conversion goes by. */
  function IntegerFlags(f: Flags, c: char): Flags {
    WithoutZeros(WithoutSigns(WithCapitals(WithoutPrefix(f, c), c), c))
  }

  /** The value of a signed argument. Whether plain char is signed is the platform's choice. */
  function SignedValue(n: int, f: Flags, charSigned: bool): int {
    if f.isLongLong || f.isLong then AsSigned(n, U64)
    else if f.isChar then if charSigned then AsSigned(n, 256) else AsUnsigned(n, 256)
    else if f.isShort then AsSigned(n, 0x1_0000)
    else AsSigned(n, U32)
  }

  function UnsignedValue(n: int, f: Flags): nat {
    if f.isLongLong || f.isLong then AsUnsigned(n, U64)
    else if f.isChar then AsUnsigned(n, 256)
    else if f.isShort then AsUnsigned(n, 0x1_0000)
    else AsUnsigned(n, U32)
  }

  function IntegerText(c: char, r: Fields, n: int, charSigned: bool): string
    requires IsInteger(c)
  {
    var f := IntegerFlags(r.flags, c);
    if c == 'i' || c == 'd' then
      var value := SignedValue(n, f, charSigned);
      Number(Abs(value), value < 0, Base(c), r.prec, r.width, f)
    else Number(UnsignedValue(n, f), false, Base(c), r.prec, r.width, f)
  }

  /** Text padded with blanks on the side that the flag does not name. */
  function Padded(text: string, width: nat, left: bool): string {
    if left then text + Repeat(' ', width - |text|) else Repeat(' ', width - |text|) + text
  }

  function CharText(n: int): string { [AsUnsigned(n, 256) as char] }

  /** With a precision, no more than that many characters of a string. */
  function StringText(s: string, r: Fields): string {
    if r.flags.precision then s[..Min(|s|, r.prec)] else s
  }

  /** The length that a string is padded from, an unsigned int. */
  function StringLength(s: string, r: Fields): nat {
    var l := Wrap32(Min(|s|, if r.prec != 0 then r.prec else U64 - 1));
    if r.flags.precision then Min(l, r.prec) else l
  }

  function StringField(s: string, r: Fields): string {
    var blanks := Repeat(' ', r.width - StringLength(s, r));
    if r.flags.left then StringText(s, r) + blanks else blanks + StringText(s, r)
  }

  /** A string of fewer than 2^32 characters is padded from what is shown of it. */
  lemma StringFieldIsPadded(s: string, r: Fields)
    requires |s| < U32 && (r.flags.precision || r.prec == 0)
    ensures StringField(s, r) == Padded(StringText(s, r), r.width, r.flags.left)
  {
  }

  function PointerText(r: Fields, n: int): string {
    Number(AsUnsigned(n, U64), false, 16, r.prec, 16, r.flags.(zeropad := true, uppercase := true))
  }

  /** What a directive prints; `float` stands for the floating-point conversions. */
  function DirectiveText(c: char, r: Fields, arg: Arg, charSigned: bool, float: (char, Fields, Arg) -> string): string {
    if IsInteger(c) then IntegerText(c, r, arg.number, charSigned)
    else if IsFloat(c) then float(c, r, arg)
    else if c == 'c' then Padded(CharText(arg.number), r.width, r.flags.left)
    else if c == 's' then StringField(arg.text, r)
    else if c == 'p' then PointerText(r, arg.number)
    else [c]
  }

  predicate TakesArgument(c: char) { IsInteger(c) || IsFloat(c) || c == 'c' || c == 's' || c == 'p' }

  /** Where the format and the arguments go on behind the plain character or directive at p. */
  function After(fmt: string, va: nat -> Arg, p: nat, a: nat): (r: (nat, nat))
    requires p < |fmt|
    ensures p < r.0
  {
    if fmt[p] != '%' then (p + 1, a)
    else
      var r := ParseFields(fmt, va, p + 1, a);
      (r.p + 1, if TakesArgument(At(fmt, r.p)) then r.a + 1 else r.a)
  }

  /** fmt is the memory from the format on. Reading it stops at a NUL that is no part of a directive, and does not
  go beyond the memory. (A directive that is cut short takes the NUL for its specifier, and reading goes on.) */
  predicate Complete(fmt: string, va: nat -> Arg, p: nat, a: nat)
    requires p <= |fmt|
    decreases |fmt| - p
  {
    p < |fmt| &&
    (fmt[p] == '\0' ||
     (var r := After(fmt, va, p, a);
      r.0 <= |fmt| && Complete(fmt, va, r.0, r.1)))
  }

  /** What the plain character or directive at p prints. */
  function Piece(fmt: string, va: nat -> Arg, p: nat, a: nat, charSigned: bool,
                 float: (char, Fields, Arg) -> string): string
    requires p < |fmt| && After(fmt, va, p, a).0 <= |fmt|
  {
    if fmt[p] != '%' then [fmt[p]]
    else
      var r := ParseFields(fmt, va, p + 1, a);
      DirectiveText(fmt[r.p], r, va(r.a), charSigned, float)
  }

  /** The whole output. It knows nothing of sinks and sizes. */
  function Text(fmt: string, va: nat -> Arg, p: nat, a: nat, charSigned: bool,
                float: (char, Fields, Arg) -> string): string
    requires p <= |fmt| && Complete(fmt, va, p, a)
    decreases |fmt| - p
  {
    if fmt[p] == '\0' then []
    else
      var r := After(fmt, va, p, a);
      Piece(fmt, va, p, a, charSigned, float) + Text(fmt, va, r.0, r.1, charSigned, float)
  }
}
