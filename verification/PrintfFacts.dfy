/** What the printed digits say: they denote the value, and are read back. */
module PrintfFacts {
  import opened Sequences
  import opened PrintfText

  function DigitValue(c: char): nat {
    if '0' <= c <= '9' then (c - '0') as nat
    else if 'a' <= c <= 'f' then (c - 'a') as nat + 10
    else if 'A' <= c <= 'F' then (c - 'A') as nat + 10
    else 0
  }

  /** The number that a numeral denotes; its least significant digit comes first. */
  function Denoted(ds: seq<char>, base: nat): nat {
    if ds == [] then 0 else DigitValue(ds[0]) + base * Denoted(ds[1..], base)
  }

  lemma PowPositive(base: nat, n: nat)
    requires base > 0
    ensures Pow(base, n) > 0
  {
  }

  /** Remainders digit by digit. */
  lemma ModByProduct(v: nat, b: nat, m: nat)
    requires b > 0 && m > 0
    ensures b * m > 0 && v % (b * m) == v % b + b * (v / b % m)
  {
    var q, r := v / b, v % b;
    var h, l := q / m, q % m;
    assert v == b * (m * h + l) + r;
    assert b * (m * h + l) == (b * m) * h + b * l by {
      assert b * (m * h) == (b * m) * h;
    }
    assert b * l <= b * (m - 1);
    assert b * (m - 1) == b * m - b;
    RemainderUnique(v, b * m, h, b * l + r);
  }

  lemma RemainderUnique(v: nat, n: nat, q: nat, r: nat)
    requires n > 0 && v == n * q + r && r < n
    ensures v % n == r
  {
    var d := v / n - q;
    assert n * d == r - v % n;
    assert d == 0;
  }

  function Remainder(v: nat, n: nat): nat
    requires n > 0
  {
    v % n
  }

  /** Exactly the value modulo base^n, so exactly the value when it fits n digits. */
  lemma {:induction false} DigitsDenote(value: nat, base: nat, upper: bool, n: nat)
    requires 2 <= base <= 16 && n > 0
    ensures Pow(base, n) > 0 && Denoted(Digits(value, base, upper, n), base) == Remainder(value, Pow(base, n))
    decreases n
  {
    hide *;
    var q := Rest(value, base);
    RestRemainder(value, base, n);
    DenotedUnfold(value, base, upper, n);
    if q != 0 && n > 1 {
      DigitsDenote(q, base, upper, n - 1);
    }
  }

  lemma DenotedUnfold(value: nat, base: nat, upper: bool, n: nat)
    requires 2 <= base <= 16 && n > 0
    ensures Denoted(Digits(value, base, upper, n), base) ==
            Remainder(value, base) + base * if Rest(value, base) != 0 && n > 1
                                            then Denoted(Digits(Rest(value, base), base, upper, n - 1), base)
                                            else 0
  {
  }

  lemma RestRemainder(value: nat, base: nat, n: nat)
    requires base >= 2 && n > 0
    ensures Pow(base, n) > 0 && Pow(base, n - 1) > 0
    ensures Remainder(value, Pow(base, n)) ==
            Remainder(value, base) + base * Remainder(Rest(value, base), Pow(base, n - 1))
    ensures Rest(value, base) == 0 || n == 1 ==> Remainder(Rest(value, base), Pow(base, n - 1)) == 0
  {
    hide Rest, Remainder, Pow;
    var m := Pow(base, n - 1);
    PowPositive(base, n - 1);
    PowStep(base, n - 1);
    PowZero(base);
    RemainderByProduct(value, base, m);
    RemainderIsZero(Rest(value, base), m);
  }

  lemma RemainderByProduct(value: nat, base: nat, m: nat)
    requires base >= 2 && m > 0
    ensures base * m > 0
    ensures Remainder(value, base * m) == Remainder(value, base) + base * Remainder(Rest(value, base), m)
  {
    ModByProduct(value, base, m);
  }

  lemma RemainderIsZero(v: nat, m: nat)
    requires m > 0
    ensures v == 0 || m == 1 ==> Remainder(v, m) == 0
  {
  }

  /** No more digits than needed. */
  lemma {:induction false} DigitsAreFew(value: nat, base: nat, upper: bool, n: nat, k: nat)
    requires 2 <= base <= 16 && n > 0 && k > 0 && value < Pow(base, k)
    ensures |Digits(value, base, upper, n)| <= k
    decreases n
  {
    if k == 1 {
      assert Pow(base, 0) == 1;
      assert value / base == 0;
    } else if value / base != 0 && n > 1 {
      assert value < base * Pow(base, k - 1);
      assert value / base < Pow(base, k - 1);
      DigitsAreFew(value / base, base, upper, n - 1, k - 1);
    }
  }

  lemma PowZero(base: nat)
    ensures Pow(base, 0) == 1
  {
  }

  lemma PowStep(base: nat, n: nat)
    ensures Pow(base, n + 1) == base * Pow(base, n) && Pow(base, 1) == base
  {
  }

  lemma Square(base: nat, m: nat, v: nat)
    requires Pow(base, m) == v
    ensures Pow(base, 2 * m) == v * v
  {
    PowSum(base, m, m);
  }

  lemma PowersOf64Bits()
    ensures U64 <= Pow(8, NTOA_BUFFER) && U64 <= Pow(10, 20)
    ensures U64 <= Pow(10, NTOA_BUFFER) && U64 <= Pow(16, NTOA_BUFFER)
    ensures Pow(2, NTOA_BUFFER) == U32
  {
    hide Pow;
    PowStep(8, 0); Square(8, 1, 8); Square(8, 2, 64); Square(8, 4, 4096);
    Square(8, 8, 0x100_0000); Square(8, 16, 0x1_0000_0000_0000);
    PowStep(16, 0); Square(16, 1, 16); Square(16, 2, 256); Square(16, 4, 0x1_0000);
    Square(16, 8, U32); Square(16, 16, U64);
    PowStep(2, 0); Square(2, 1, 2); Square(2, 2, 4); Square(2, 4, 16); Square(2, 8, 256); Square(2, 16, 0x1_0000);
    PowStep(10, 0); Square(10, 1, 10); Square(10, 2, 100); Square(10, 4, 10000); Square(10, 8, 100000000);
    Square(10, 16, 10000000000000000); PowSum(10, 16, 4);
  }

  lemma {:induction false} PowSum(base: nat, m: nat, n: nat)
    ensures Pow(base, m + n) == Pow(base, m) * Pow(base, n)
  {
    if m > 0 {
      PowSum(base, m - 1, n);
      assert base * (Pow(base, m - 1) * Pow(base, n)) == (base * Pow(base, m - 1)) * Pow(base, n);
    }
  }

  /** A 64-bit value is printed exactly, but in base 2 only its lower 32 bits are. */
  lemma NumeralOf64Bits(value: nat, base: nat, upper: bool)
    requires value < U64 && base in {2, 8, 10, 16}
    ensures Denoted(Digits(value, base, upper, NTOA_BUFFER), base) == if base == 2 then value % U32 else value
  {
    hide Pow, Denoted, Digits;
    DigitsDenote(value, base, upper, NTOA_BUFFER);
    PowersOf64Bits();
    RemainderIsSelf(value, Pow(base, NTOA_BUFFER));
  }

  lemma RemainderIsSelf(v: nat, n: nat)
    ensures v < n ==> Remainder(v, n) == v
  {
  }

  // ---------- reading back ----------

  predicate Decimal(ds: seq<char>) { forall i :: 0 <= i < |ds| ==> IsDigit(ds[i]) }

  lemma {:induction false} DigitsAreDecimal(value: nat, upper: bool, n: nat)
    requires n > 0
    ensures Decimal(Digits(value, 10, upper, n))
    decreases n
  {
    if value / 10 != 0 && n > 1 {
      DigitsAreDecimal(value / 10, upper, n - 1);
    }
  }

  lemma {:induction false} DenotedAppend(ds: seq<char>, c: char, base: nat)
    ensures Denoted(ds + [c], base) == Denoted(ds, base) + DigitValue(c) * Pow(base, |ds|)
  {
    if ds == [] {
      assert ds + [c] == [c] && [c][1..] == [];
      assert Denoted([c], base) == DigitValue(c) + base * Denoted([], base);
    } else {
      assert (ds + [c])[1..] == ds[1..] + [c];
      hide Pow, DigitValue;
      DenotedAppend(ds[1..], c, base);
      PowStep(base, |ds| - 1);
      TimesSum(base, Denoted(ds[1..], base), DigitValue(c), Pow(base, |ds| - 1));
    }
  }

  lemma TimesSum(base: nat, a: nat, d: nat, x: nat)
    ensures base * (a + d * x) == base * a + d * (base * x)
    ensures (a * base + d) * x == a * (base * x) + d * x
  {
  }

  lemma {:induction false} ParseReversed(fmt: string, p: nat, i: nat, ds: seq<char>)
    requires Decimal(ds) && p + |ds| <= |fmt| && fmt[p..p + |ds|] == Reversed(ds) && !IsDigit(At(fmt, p + |ds|))
    requires i < U32
    ensures ParseNumber(fmt, p, i) == (Wrap32(i * Pow(10, |ds|) + Denoted(ds, 10)), p + |ds|)
    decreases |ds|
  {
    hide Pow, Denoted, Wrap32;
    if ds == [] {
      ParseNothing(i);
    } else {
      var front, c, k := ds[..|ds| - 1], ds[|ds| - 1], |ds| - 1;
      assert ds == front + [c];
      ReversedAppend(front, c);
      DenotedAppend(front, c, 10);
      assert fmt[p] == fmt[p..p + |ds|][0] == c;
      assert fmt[p + 1..p + 1 + |front|] == fmt[p..p + |ds|][1..] == Reversed(front);
      ParseStep(i, DigitValue(c), k, Denoted(front, 10));
      ParseReversed(fmt, p + 1, Wrap32(i * 10 + DigitValue(c)), front);
    }
  }

  lemma ParseNothing(i: nat)
    requires i < U32
    ensures Wrap32(i * Pow(10, 0) + Denoted([], 10)) == i
  {
  }

  lemma ParseStep(i: nat, d: nat, k: nat, y: nat)
    ensures Wrap32(Wrap32(i * 10 + d) * Pow(10, k) + y) == Wrap32(i * Pow(10, k + 1) + (y + d * Pow(10, k)))
    ensures Wrap32(i * 10 + d) < U32
  {
    hide Pow;
    RemainderOfSum(i * 10 + d, Pow(10, k), y, U32);
    PowStep(10, k);
    TimesSum(10, i, d, Pow(10, k));
  }

  lemma RemainderOfSum(j: nat, x: nat, y: nat, m: nat)
    requires m > 0
    ensures (j % m * x + y) % m == (j * x + y) % m
  {
    DistributeQuotient(j / m, j % m, m, x);
    AddMultiple(j % m * x + y, m, j / m * x);
  }

  lemma DistributeQuotient(q: nat, r: nat, m: nat, x: nat)
    ensures (m * q + r) * x == m * (q * x) + r * x
  {
  }

  lemma AddMultiple(v: nat, m: nat, k: nat)
    requires m > 0
    ensures (m * k + v) % m == v % m
  {
    assert m * (k + v / m) == m * k + m * (v / m);
    RemainderUnique(m * k + v, m, k + v / m, v % m);
  }

  /** What "%u" prints is read back by _atoi, wherever it stands: exactly below 2^32, modulo 2^32 from there on. */
  lemma AtoiReadsBack(value: nat, numeral: string, fmt: string, p: nat)
    requires value < U64 && numeral == Number(value, false, 10, 0, 0, NO_FLAGS)
    requires p + |numeral| <= |fmt| && fmt[p..p + |numeral|] == numeral && !IsDigit(At(fmt, p + |numeral|))
    ensures ParseNumber(fmt, p, 0) == (Wrap32(value), p + |numeral|)
  {
    hide Digits, Number, Denoted, ParseNumber, Decimal, Reversed, IsDigit, Wrap32, Pow;
    var ds := Digits(value, 10, false, NTOA_BUFFER);
    PlainNumber(value);
    DigitsAreDecimal(value, false, NTOA_BUFFER);
    NumeralOf64Bits(value, 10, false);
    ParseReversed(fmt, p, 0, ds);
  }

  lemma PlainNumber(value: nat)
    ensures Number(value, false, 10, 0, 0, NO_FLAGS) == Reversed(Digits(value, 10, false, NTOA_BUFFER))
  {
    var ds := Digits(value, 10, false, NTOA_BUFFER);
    assert LeadingZeros(ds, 0, 0, NO_FLAGS) == ds;
    assert Columns(ds, 0, NO_FLAGS) == Reversed(ds);
  }

  // ---------- numerals ----------

  const LOWER_DIGITS := "0123456789abcdef"
  const UPPER_DIGITS := "0123456789ABCDEF"

  /** s denotes the value in this base, without leading zeros and in the case wanted. */
  ghost predicate IsNumeral(s: string, base: nat, upper: bool, value: nat) {
    s != [] && (|s| > 1 ==> s[0] != '0') && Denoted(Reversed(s), base) == value &&
    forall k :: 0 <= k < |s| ==> IsDigitOf(s[k], base, upper)
  }

  ghost predicate IsDigitOf(c: char, base: nat, upper: bool) {
    base <= 16 && c in (if upper then UPPER_DIGITS else LOWER_DIGITS)[..base]
  }

  lemma DigitCharIsDigit(d: nat, upper: bool)
    requires d < 16
    ensures DigitChar(d, upper) == (if upper then UPPER_DIGITS else LOWER_DIGITS)[d]
    ensures DigitChar(d, upper) == '0' ==> d == 0
  {
  }

  lemma LowDigitIs(value: nat, base: nat, upper: bool)
    requires 2 <= base <= 16
    ensures IsDigitOf(LowDigit(value, base, upper), base, upper)
    ensures LowDigit(value, base, upper) == '0' ==> Remainder(value, base) == 0
  {
    var d := Remainder(value, base);
    hide IsDigitOf, DigitChar, UPPER_DIGITS, LOWER_DIGITS;
    DigitCharIsDigit(d, upper);
    DigitInBase(d, base, upper);
  }

  lemma DigitInBase(d: nat, base: nat, upper: bool)
    requires d < base <= 16
    ensures IsDigitOf((if upper then UPPER_DIGITS else LOWER_DIGITS)[d], base, upper)
  {
  }

  /** Digits of the base, the last one not 0 if there are several, as long as the value fits. */
  lemma {:induction false} DigitsAreOfBase(value: nat, base: nat, upper: bool, n: nat)
    requires 2 <= base <= 16 && n > 0 && value < Pow(base, n)
    ensures var ds := Digits(value, base, upper, n);
            (forall k :: 0 <= k < |ds| ==> IsDigitOf(ds[k], base, upper)) &&
            (value != 0 ==> ds[|ds| - 1] != '0') && (value == 0 ==> |ds| == 1)
    decreases n
  {
    var q := Rest(value, base);
    LowDigitIs(value, base, upper);
    DigitsUnfold(value, base, upper, n);
    RestFits(value, base, n);
    hide *;
    var low, ds := LowDigit(value, base, upper), Digits(value, base, upper, n);
    if q != 0 && n > 1 {
      DigitsAreOfBase(q, base, upper, n - 1);
      var rest := Digits(q, base, upper, n - 1);
      assert forall k :: 0 <= k < |ds| ==> ds[k] == if k == 0 then low else rest[k - 1];
    } else {
      assert ds == [low];
    }
  }

  lemma RestFits(value: nat, base: nat, n: nat)
    requires 2 <= base && n > 0 && value < Pow(base, n)
    ensures Rest(value, base) < Pow(base, n - 1)
    ensures Pow(base, 0) == 1
    ensures value == Remainder(value, base) + base * Rest(value, base)
    ensures Rest(value, base) == 0 ==> value == Remainder(value, base)
  {
    assert value < base * Pow(base, n - 1);
  }

  lemma {:induction false} DigitsAreNumeral(value: nat, base: nat, upper: bool)
    requires value < U64 && base in {2, 8, 10, 16} && (base == 2 ==> value < U32)
    ensures IsNumeral(Reversed(Digits(value, base, upper, NTOA_BUFFER)), base, upper, value)
  {
    hide Digits, Pow, IsDigitOf, Denoted;
    var ds := Digits(value, base, upper, NTOA_BUFFER);
    var s := Reversed(ds);
    PowersOf64Bits();
    NumeralOf64Bits(value, base, upper);
    DigitsAreOfBase(value, base, upper, NTOA_BUFFER);
    ReversedTwice(ds);
    forall k | 0 <= k < |s|
      ensures s[k] == ds[|s| - 1 - k]
    {
      ReversedAt(ds, k);
    }
    hide Reversed;
  }

  // ---------- a value has one numeral ----------

  lemma DigitOf(c: char, base: nat, upper: bool)
    requires IsDigitOf(c, base, upper)
    ensures DigitValue(c) < base && c == (if upper then UPPER_DIGITS else LOWER_DIGITS)[DigitValue(c)]
  {
  }

  predicate NoLeadingZero(ds: seq<char>) { ds != [] ==> ds[|ds| - 1] != '0' }

  lemma {:induction false} DenotedPositive(ds: seq<char>, base: nat, upper: bool)
    requires ds != [] && NoLeadingZero(ds) && forall k :: 0 <= k < |ds| ==> IsDigitOf(ds[k], base, upper)
    ensures Denoted(ds, base) > 0
  {
    DigitOf(ds[0], base, upper);
    hide IsDigitOf, LOWER_DIGITS, UPPER_DIGITS;
    if |ds| > 1 {
      DenotedPositive(ds[1..], base, upper);
      assert base * Denoted(ds[1..], base) > 0;
    } else {
      assert DigitValue(ds[0]) != 0;
    }
  }

  lemma SameQuotient(base: nat, d: nat, e: nat, a: nat, b: nat)
    requires d < base && e < base && d + base * a == e + base * b
    ensures d == e && a == b
  {
    var v := d + base * a;
    RemainderUnique(v, base, a, d);
    RemainderUnique(v, base, b, e);
    assert base * (a - b) == 0;
  }

  lemma {:induction false} DigitsUnique(ds: seq<char>, es: seq<char>, base: nat, upper: bool)
    requires NoLeadingZero(ds) && forall k :: 0 <= k < |ds| ==> IsDigitOf(ds[k], base, upper)
    requires NoLeadingZero(es) && forall k :: 0 <= k < |es| ==> IsDigitOf(es[k], base, upper)
    requires Denoted(ds, base) == Denoted(es, base)
    ensures ds == es
  {
    hide IsDigitOf, LOWER_DIGITS, UPPER_DIGITS, DigitValue;
    if ds == [] || es == [] {
      if ds != [] {
        DenotedPositive(ds, base, upper);
      } else if es != [] {
        DenotedPositive(es, base, upper);
      }
    } else {
      DigitOf(ds[0], base, upper);
      DigitOf(es[0], base, upper);
      SameQuotient(base, DigitValue(ds[0]), DigitValue(es[0]), Denoted(ds[1..], base), Denoted(es[1..], base));
      DigitsUnique(ds[1..], es[1..], base, upper);
      assert ds == [ds[0]] + ds[1..] && es == [es[0]] + es[1..];
    }
  }

  lemma NumeralDigits(s: string, base: nat, upper: bool, value: nat)
    requires IsNumeral(s, base, upper, value)
    ensures var ds := Reversed(s);
            (forall k :: 0 <= k < |ds| ==> IsDigitOf(ds[k], base, upper)) &&
            (|ds| > 1 ==> NoLeadingZero(ds)) && Denoted(ds, base) == value && ds != []
  {
    var ds := Reversed(s);
    forall k | 0 <= k < |ds|
      ensures ds[k] == s[|s| - 1 - k]
    {
      ReversedAt(s, k);
    }
    hide Reversed, IsDigitOf, Denoted;
  }

  lemma {:induction false} ZeroDigit(ds: seq<char>, base: nat, upper: bool)
    requires |ds| == 1 && IsDigitOf(ds[0], base, upper)
    ensures Denoted(ds, base) == 0 <==> ds[0] == '0'
  {
  }

  /** The value, the base and the case fix the numeral. */
  lemma NumeralUnique(s: string, t: string, base: nat, upper: bool, value: nat)
    requires IsNumeral(s, base, upper, value) && IsNumeral(t, base, upper, value)
    ensures s == t
  {
    var ds, es := Reversed(s), Reversed(t);
    NumeralDigits(s, base, upper, value);
    NumeralDigits(t, base, upper, value);
    ReversedTwice(s);
    ReversedTwice(t);
    hide Reversed, IsDigitOf, Denoted, IsNumeral;
    if |ds| == 1 {
      ZeroDigit(ds, base, upper);
    }
    if |es| == 1 {
      ZeroDigit(es, base, upper);
    }
    if ds == "0" || es == "0" {
      if ds != "0" {
        DenotedPositive(ds, base, upper);
      } else if es != "0" {
        DenotedPositive(es, base, upper);
      }
    } else {
      DigitsUnique(ds, es, base, upper);
    }
  }
}
