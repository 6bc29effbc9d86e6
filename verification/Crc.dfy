/** The 16-bit CRC of CoreMark (core_util.c).

The C loops are methods; `Divide` is the register after a bit string has been shifted
in. The lemmas say what that register is: the remainder of a polynomial division over
GF(2), linear in message and register together, and a bijection in each word. */
module Crc {

  function Bit(data: bv16): bool { data & 1 == 1 }

  function Half(data: bv16): bv16 { data >> 1 }

  /** Addition of polynomials over GF(2). */
  function Sum(a: bv16, b: bv16): bv16 { a ^ b }

  /** One message bit shifted into the register. 0xA001 is x^16 + x^15 + x^2 + 1 without
  its leading term, the lowest power in the top bit. */
  function Shift(bit: bool, crc: bv16): bv16 {
    if Bit(crc) != bit then Sum(Half(crc), 0xA001) else Half(crc)
  }

  function Divide(bits: seq<bool>, crc: bv16): bv16 {
    if bits == [] then crc else Divide(bits[1..], Shift(bits[0], crc))
  }

  /** The n lowest bits of data, lowest first: the order in which they are shifted in. */
  function LowBits(data: bv16, n: nat): (bits: seq<bool>)
    ensures |bits| == n
    decreases n, data
  {
    if n == 0 then [] else [Bit(data)] + LowBits(Half(data), n - 1)
  }

  function CrcOfByte(data: bv16, crc: bv16): bv16 { Divide(LowBits(data, 8), crc) }

  function CrcOfWord(word: bv16, crc: bv16): bv16 { Divide(LowBits(word, 16), crc) }

  /** A 32-bit value goes in as its two halves, the low one first. */
  function CrcOfLong(newval: u32, crc: bv16): bv16 {
    CrcOfWord(HighWord(newval), CrcOfWord(LowWord(newval), crc))
  }

  /** ee_u32. */
  type u32 = x: int | 0 <= x < 0x1_0000_0000

  function LowWord(n: u32): bv16 { (n % 0x1_0000) as bv16 }

  function HighWord(n: u32): bv16 { (n / 0x1_0000) as bv16 }

  function CrcOfWords(words: seq<bv16>, crc: bv16): bv16 {
    if words == [] then crc else CrcOfWords(words[1..], CrcOfWord(words[0], crc))
  }

  // ---------- the C loops ----------

  method Crcu8(data0: bv16, crc0: bv16) returns (crc: bv16)
    ensures crc == CrcOfByte(data0, crc0)
  {
    hide LowBits, Divide, Shift, Bit;
    var data, i := data0, 0;
    crc := crc0;
    while i < 8
      invariant i <= 8
      invariant Divide(LowBits(data, 8 - i), crc) == Divide(LowBits(data0, 8), crc0)
    {
      DivideLowBits(data, 8 - i, crc);
      data, crc := ShiftOneBit(data, crc);
      i := i + 1;
    }
    DivideNoBits(data, crc);
  }

  /** The body of the loop of crcu8. */
  method ShiftOneBit(data0: bv16, crc0: bv16) returns (data: bv16, crc: bv16)
    ensures data == Half(data0)
    ensures crc == Shift(Bit(data0), crc0)
  {
    hide Shift, Bit;
    ShiftByCarry(data0, crc0);
    data, crc := data0, crc0;
    var carry := false;
    var x16 := (data & 1) ^ (crc & 1);
    data := data >> 1;
    if x16 == 1 {
      crc := crc ^ 0x4002;
      carry := true;
    } else {
      carry := false;
    }
    crc := crc >> 1;
    if carry {
      crc := crc | 0x8000;
    } else {
      crc := crc & 0x7fff;
    }
  }

  /** Toggling 0x4002, shifting and setting the top bit is one step of the division. */
  lemma ShiftByCarry(data: bv16, crc: bv16)
    ensures (data & 1) ^ (crc & 1) == 1 ==> ((crc ^ 0x4002) >> 1) | 0x8000 == Shift(Bit(data), crc)
    ensures (data & 1) ^ (crc & 1) != 1 ==> (crc >> 1) & 0x7fff == Shift(Bit(data), crc)
  {
  }

  lemma DivideNoBits(data: bv16, crc: bv16)
    ensures Divide(LowBits(data, 0), crc) == crc
  {
  }

  lemma DivideLowBits(data: bv16, n: nat, crc: bv16)
    requires n > 0
    ensures Divide(LowBits(data, n), crc) == Divide(LowBits(Half(data), n - 1), Shift(Bit(data), crc))
  {
  }

  method Crcu16(newval: bv16, crc0: bv16) returns (crc: bv16)
    ensures crc == CrcOfWord(newval, crc0)
  {
    crc := Crcu8(newval & 0x00ff, crc0);
    crc := Crcu8(newval >> 8, crc);
    LowBitsSplit(newval);
    DivideConcat(LowBits(newval & 0x00ff, 8), LowBits(newval >> 8, 8), crc0);
  }

  method Crcu32(newval: u32, crc0: bv16) returns (crc: bv16)
    ensures crc == CrcOfLong(newval, crc0)
  {
    hide LowWord, HighWord, CrcOfWord;
    crc := Crcu16(LowWord(newval), crc0);
    crc := Crcu16(HighWord(newval), crc);
  }

  lemma {:induction false} DivideConcat(a: seq<bool>, b: seq<bool>, crc: bv16)
    ensures Divide(a + b, crc) == Divide(b, Divide(a, crc))
  {
    if a == [] {
      assert a + b == b;
    } else {
      assert (a + b)[1..] == a[1..] + b;
      DivideConcat(a[1..], b, Shift(a[0], crc));
    }
  }

  lemma LowBitsSplit(w: bv16)
    ensures LowBits(w, 16) == LowBits(w & 0x00ff, 8) + LowBits(w >> 8, 8)
  {
    LowBitsAppend(w, 8, 8);
    ShiftByEight(w);
    SameByte(w, w & 0x00ff);
  }

  function ShiftedBy(w: bv16, n: nat): bv16
    decreases n, w
  {
    if n == 0 then w else ShiftedBy(Half(w), n - 1)
  }

  /** Words that agree on their eight lowest bits shift in the same byte. */
  lemma SameByte(v: bv16, w: bv16)
    requires v & 0x00ff == w & 0x00ff
    ensures LowBits(v, 8) == LowBits(w, 8)
  {
    CoversOneMore(0x01, 0x00, 0);
    CoversOneMore(0x03, 0x01, 1);
    CoversOneMore(0x07, 0x03, 2);
    CoversOneMore(0x0f, 0x07, 3);
    CoversOneMore(0x1f, 0x0f, 4);
    CoversOneMore(0x3f, 0x1f, 5);
    CoversOneMore(0x7f, 0x3f, 6);
    CoversOneMore(0xff, 0x7f, 7);
    SameLowBits(v, w, 8, 0x00ff);
  }

  ghost predicate Covers(mask: bv16, n: nat)
    decreases n, mask
  {
    n == 0 || (Bit(mask) && Covers(Half(mask), n - 1))
  }

  lemma CoversOneMore(mask: bv16, half: bv16, n: nat)
    requires Bit(mask) && Half(mask) == half && Covers(half, n)
    ensures Covers(mask, n + 1)
  {
  }

  lemma {:induction false} SameLowBits(v: bv16, w: bv16, n: nat, mask: bv16)
    requires v & mask == w & mask && Covers(mask, n)
    ensures LowBits(v, n) == LowBits(w, n)
    decreases n
  {
    hide LowBits, Bit, Half, Sum;
    if n == 0 {
      assert |LowBits(v, n)| == |LowBits(w, n)| == 0;
    } else {
      LowBitsFirst(v, n);
      LowBitsFirst(w, n);
      SameLowestBit(v, w, mask);
      SameLowBits(Half(v), Half(w), n - 1, Half(mask));
    }
  }

  lemma SameLowestBit(v: bv16, w: bv16, mask: bv16)
    requires v & mask == w & mask && Bit(mask)
    ensures Bit(v) == Bit(w)
    ensures Half(v) & Half(mask) == Half(w) & Half(mask)
  {
  }

  lemma ShiftByEight(w: bv16)
    ensures ShiftedBy(w, 8) == w >> 8
  {
    var n := 8;
    ShiftByTwo(w, n);
    ShiftByTwo(w >> 2, n - 2);
    ShiftByTwo(w >> 4, n - 4);
    ShiftByTwo(w >> 6, n - 6);
  }

  lemma ShiftByTwo(w: bv16, n: nat)
    requires n >= 2
    ensures ShiftedBy(w, n) == ShiftedBy(w >> 2, n - 2)
    ensures w >> 2 >> 2 == w >> 4
  {
  }

  lemma {:induction false} LowBitsAppend(w: bv16, m: nat, n: nat)
    ensures LowBits(w, m + n) == LowBits(w, m) + LowBits(ShiftedBy(w, m), n)
    decreases m
  {
    hide LowBits, Bit, Half, Sum;
    if m == 0 {
      assert |LowBits(w, m)| == 0;
    } else {
      LowBitsFirst(w, m + n);
      LowBitsFirst(w, m);
      LowBitsAppend(Half(w), m - 1, n);
    }
  }

  // ---------- the register is a remainder ----------

  function Zeros(n: nat): seq<bool> { seq(n, _ => false) }

  /** The sixteen coefficients held in a register, highest power first. */
  function Coefficients(r: bv16): (p: seq<bool>)
    ensures |p| == 16
  {
    LowBits(r, 16)
  }

  /** The sum of a polynomial and of one that is added to its leading coefficients. */
  function AddLeading(p: seq<bool>, lead: seq<bool>): (sum: seq<bool>)
    ensures |sum| == |p|
  {
    if p == [] || lead == [] then p else [p[0] != lead[0]] + AddLeading(p[1..], lead[1..])
  }

  /** Message times x^16, plus the register aligned with the first message bits. */
  function Dividend(bits: seq<bool>, crc: bv16): seq<bool> {
    AddLeading(bits + Zeros(16), Coefficients(crc))
  }

  /** Quotient times (x^16 + x^15 + x^2 + 1) plus remainder, highest power first. */
  function Recombine(quotient: seq<bool>, remainder: bv16): (p: seq<bool>)
    ensures |p| == |quotient| + 16
  {
    if quotient == [] then Coefficients(remainder)
    else
      var rest := Recombine(quotient[1..], remainder);
      [quotient[0]] + if quotient[0] then AddLeading(rest, Coefficients(0xA001)) else rest
  }

  function Quotient(bits: seq<bool>, crc: bv16): (q: seq<bool>)
    ensures |q| == |bits|
  {
    if bits == [] then [] else [Bit(crc) != bits[0]] + Quotient(bits[1..], Shift(bits[0], crc))
  }

  /** The register is the remainder, and the only one: a quotient and a register recombine to
  the dividend exactly when they are the ones computed. */
  lemma {:induction false} DivideIsRemainder(bits: seq<bool>, crc: bv16, quotient: seq<bool>, remainder: bv16)
    requires |quotient| == |bits|
    ensures Recombine(quotient, remainder) == Dividend(bits, crc)
            <==> quotient == Quotient(bits, crc) && remainder == Divide(bits, crc)
  {
    hide LowBits, Bit, Shift;
    if bits == [] {
      AddToZeros(Coefficients(crc));
      assert bits + Zeros(16) == Zeros(16);
      if Recombine(quotient, remainder) == Dividend(bits, crc) {
        CoefficientsInjective(remainder, crc);
      }
    } else {
      var next := Shift(bits[0], crc);
      DivideIsRemainder(bits[1..], next, quotient[1..], remainder);
      DividendStep(bits, crc);
      var q := Bit(crc) != bits[0];
      var rest, p := Recombine(quotient[1..], remainder), Coefficients(0xA001);
      var rest' := Dividend(bits[1..], next);
      AddLeadingTwice(rest, p);
      AddLeadingTwice(rest', p);
      var tail := if quotient[0] then AddLeading(rest, p) else rest;
      var tail' := if q then AddLeading(rest', p) else rest';
      assert Recombine(quotient, remainder) == [quotient[0]] + tail;
      assert ([quotient[0]] + tail)[1..] == tail && ([q] + tail')[1..] == tail';
      assert quotient == [quotient[0]] + quotient[1..];
      assert Quotient(bits, crc)[1..] == Quotient(bits[1..], next);
    }
  }

  /** The leading coefficient of the dividend is the quotient bit; what is left is the
  dividend of the remaining bits, plus the polynomial when that bit is set. */
  lemma DividendStep(bits: seq<bool>, crc: bv16)
    requires bits != []
    ensures Dividend(bits, crc) != []
    ensures var q, rest := Bit(crc) != bits[0], Dividend(bits[1..], Shift(bits[0], crc));
            Dividend(bits, crc) == [q] + if q then AddLeading(rest, Coefficients(0xA001)) else rest
  {
    var q, p := Bit(crc) != bits[0], Coefficients(0xA001);
    var m := bits[1..] + Zeros(16);
    assert (bits + Zeros(16))[1..] == m;
    CoefficientsOfHalf(crc);
    AddFalse(m, Coefficients(crc)[1..]);
    assert Dividend(bits, crc) == [q] + AddLeading(m, Coefficients(Half(crc)));
    if q {
      CoefficientsOfSum(Half(crc), 0xA001, 16);
      AddLeadingAssociative(m, Coefficients(Half(crc)), p);
      AddLeadingTwice(AddLeading(m, Coefficients(Half(crc))), p);
    }
  }

  lemma {:induction false} AddToZeros(lead: seq<bool>)
    ensures AddLeading(Zeros(|lead|), lead) == lead
  {
    if lead != [] {
      assert Zeros(|lead|)[1..] == Zeros(|lead| - 1);
      AddToZeros(lead[1..]);
    }
  }

  lemma {:induction false} AddLeadingTwice(p: seq<bool>, lead: seq<bool>)
    ensures AddLeading(AddLeading(p, lead), lead) == p
  {
    if p != [] && lead != [] {
      AddLeadingTwice(p[1..], lead[1..]);
    }
  }

  lemma {:induction false} AddLeadingAssociative(p: seq<bool>, a: seq<bool>, b: seq<bool>)
    requires |b| <= |a|
    ensures AddLeading(p, AddLeading(a, b)) == AddLeading(AddLeading(p, a), b)
  {
    if p != [] && a != [] && b != [] {
      AddLeadingAssociative(p[1..], a[1..], b[1..]);
    }
  }

  lemma {:induction false} AddFalse(p: seq<bool>, lead: seq<bool>)
    ensures AddLeading(p, lead + [false]) == AddLeading(p, lead)
  {
    if p != [] && lead != [] {
      assert (lead + [false])[1..] == lead[1..] + [false];
      AddFalse(p[1..], lead[1..]);
    } else if p != [] {
      assert (lead + [false])[1..] == [];
    }
  }

  lemma NoBitsAfterSixteen(w: bv16)
    ensures ShiftedBy(w, 16) == 0
  {
    ShiftedByAppend(w, 8, 8);
    ShiftByEight(w);
    ShiftByEight(w >> 8);
    assert w >> 8 >> 8 == 0;
  }

  lemma {:induction false} ShiftedByAppend(w: bv16, m: nat, n: nat)
    ensures ShiftedBy(w, m + n) == ShiftedBy(ShiftedBy(w, m), n)
  {
    if m > 0 {
      ShiftedByAppend(Half(w), m - 1, n);
    }
  }

  lemma {:induction false} SameBitsSameWord(a: bv16, b: bv16, n: nat)
    requires LowBits(a, n) == LowBits(b, n) && ShiftedBy(a, n) == ShiftedBy(b, n)
    ensures a == b
    decreases n
  {
    hide LowBits, Bit, Half, Sum;
    if n > 0 {
      LowBitsFirst(a, n);
      LowBitsFirst(b, n);
      assert LowBits(a, n)[0] == LowBits(b, n)[0];
      assert LowBits(a, n)[1..] == LowBits(b, n)[1..];
      SameBitsSameWord(Half(a), Half(b), n - 1);
      SameHalfSameWord(a, b);
    }
  }

  lemma SameHalfSameWord(a: bv16, b: bv16)
    requires Bit(a) == Bit(b) && Half(a) == Half(b)
    ensures a == b
  {
  }

  lemma CoefficientsInjective(a: bv16, b: bv16)
    requires Coefficients(a) == Coefficients(b)
    ensures a == b
  {
    NoBitsAfterSixteen(a);
    NoBitsAfterSixteen(b);
    SameBitsSameWord(a, b, 16);
  }

  lemma CoefficientsOfHalf(c: bv16)
    ensures Coefficients(c) != [] && Coefficients(c)[0] == Bit(c)
    ensures Coefficients(c)[1..] + [false] == Coefficients(Half(c))
  {
    hide LowBits;
    NoBitsAfterSixteen(c);
    LowBitsAppend(c, 16, 1);
    LowBitsFirst(c, 17);
    LowBitsFirst(c, 16);
    LowBitsFirst(0, 1);
    assert LowBits(c, 17) == Coefficients(c) + [false];
    assert LowBits(c, 17) == [Bit(c)] + Coefficients(Half(c));
    assert (Coefficients(c) + [false])[1..] == Coefficients(c)[1..] + [false];
  }

  lemma LowBitsFirst(w: bv16, n: nat)
    requires n > 0
    ensures LowBits(w, n) == [Bit(w)] + LowBits(Half(w), n - 1)
  {
  }

  lemma {:induction false} CoefficientsOfSum(a: bv16, b: bv16, n: nat)
    ensures LowBits(Sum(a, b), n) == AddLeading(LowBits(a, n), LowBits(b, n))
    decreases n
  {
    hide LowBits, Bit, Half, Sum;
    if n == 0 {
      assert |LowBits(Sum(a, b), n)| == |LowBits(a, n)| == 0;
    } else {
      LowBitsFirst(Sum(a, b), n);
      LowBitsFirst(a, n);
      LowBitsFirst(b, n);
      SumIsBitwise(a, b);
      CoefficientsOfSum(Half(a), Half(b), n - 1);
    }
  }

  lemma SumIsBitwise(a: bv16, b: bv16)
    ensures Bit(Sum(a, b)) == (Bit(a) != Bit(b))
    ensures Half(Sum(a, b)) == Sum(Half(a), Half(b))
  {
  }

  // ---------- linearity, and one changed word is always seen ----------

  function SumOfBits(a: seq<bool>, b: seq<bool>): (sum: seq<bool>)
    requires |a| == |b|
    ensures |sum| == |a|
  {
    if a == [] then [] else [a[0] != b[0]] + SumOfBits(a[1..], b[1..])
  }

  function SumOfWords(a: seq<bv16>, b: seq<bv16>): (sum: seq<bv16>)
    requires |a| == |b|
    ensures |sum| == |a|
  {
    if a == [] then [] else [Sum(a[0], b[0])] + SumOfWords(a[1..], b[1..])
  }

  lemma ShiftLinear(x: bool, y: bool, c: bv16, d: bv16)
    ensures Shift(x != y, Sum(c, d)) == Sum(Shift(x, c), Shift(y, d))
  {
    hide Bit, Half, Sum;
    SumIsBitwise(c, d);
    SumCancels(Half(c), Half(d), 0xA001);
  }

  lemma SumCommutes(a: bv16, b: bv16)
    ensures Sum(a, b) == Sum(b, a)
  {
  }

  lemma SumAssociates(a: bv16, b: bv16, c: bv16)
    ensures Sum(Sum(a, b), c) == Sum(a, Sum(b, c))
  {
  }

  lemma SumTwice(a: bv16, b: bv16)
    ensures Sum(Sum(a, b), b) == a
  {
  }

  lemma SumCancels(a: bv16, b: bv16, p: bv16)
    ensures Sum(Sum(a, p), Sum(b, p)) == Sum(a, b)
    ensures Sum(Sum(a, p), b) == Sum(a, Sum(b, p)) == Sum(Sum(a, b), p)
  {
    hide Sum;
    SumCommutes(b, p);
    SumAssociates(a, b, p);
    SumAssociates(a, p, b);
    SumAssociates(Sum(a, p), b, p);
    SumTwice(Sum(a, b), p);
  }

  lemma {:induction false} DivideLinear(a: seq<bool>, b: seq<bool>, c: bv16, d: bv16)
    requires |a| == |b|
    ensures Divide(SumOfBits(a, b), Sum(c, d)) == Sum(Divide(a, c), Divide(b, d))
    decreases |a|
  {
    hide Bit, Half, Sum, Shift;
    if a != [] {
      ShiftLinear(a[0], b[0], c, d);
      DivideLinear(a[1..], b[1..], Shift(a[0], c), Shift(b[0], d));
      assert SumOfBits(a, b)[1..] == SumOfBits(a[1..], b[1..]);
    }
  }

  lemma {:induction false} LowBitsOfSum(a: bv16, b: bv16, n: nat)
    ensures LowBits(Sum(a, b), n) == SumOfBits(LowBits(a, n), LowBits(b, n))
    decreases n
  {
    hide LowBits, Bit, Half, Sum;
    if n > 0 {
      LowBitsFirst(Sum(a, b), n);
      LowBitsFirst(a, n);
      LowBitsFirst(b, n);
      SumIsBitwise(a, b);
      LowBitsOfSum(Half(a), Half(b), n - 1);
    }
  }

  lemma CrcOfWordLinear(a: bv16, b: bv16, c: bv16, d: bv16)
    ensures CrcOfWord(Sum(a, b), Sum(c, d)) == Sum(CrcOfWord(a, c), CrcOfWord(b, d))
  {
    hide LowBits, Divide, Sum;
    LowBitsOfSum(a, b, 16);
    DivideLinear(LowBits(a, 16), LowBits(b, 16), c, d);
  }

  /** The CRC is linear in the message and the register together. */
  lemma {:induction false} CrcLinear(a: seq<bv16>, b: seq<bv16>, c: bv16, d: bv16)
    requires |a| == |b|
    ensures CrcOfWords(SumOfWords(a, b), Sum(c, d)) == Sum(CrcOfWords(a, c), CrcOfWords(b, d))
    decreases |a|
  {
    hide CrcOfWord, Sum;
    if a != [] {
      CrcOfWordLinear(a[0], b[0], c, d);
      CrcLinear(a[1..], b[1..], CrcOfWord(a[0], c), CrcOfWord(b[0], d));
      assert SumOfWords(a, b)[1..] == SumOfWords(a[1..], b[1..]);
    }
  }

  /** Undoes one shift of a zero bit: the top bit tells whether the polynomial was added. */
  function Unshift(crc: bv16): bv16 {
    if crc & 0x8000 != 0 then ((crc ^ 0xA001) << 1) | 1 else crc << 1
  }

  lemma UnshiftInverts(crc: bv16)
    ensures Unshift(Shift(false, crc)) == crc
    ensures Shift(false, Unshift(crc)) == crc
  {
    UnshiftAfter(crc);
    UnshiftBefore(crc);
  }

  lemma UnshiftAfter(crc: bv16)
    ensures Unshift(Shift(false, crc)) == crc
  {
  }

  lemma UnshiftBefore(crc: bv16)
    ensures Shift(false, Unshift(crc)) == crc
  {
    if crc & 0x8000 != 0 {
      UnshiftBeforeOdd(crc);
      assert Unshift(crc) == ((crc ^ 0xA001) << 1) | 1;
    } else {
      UnshiftBeforeEven(crc);
      assert Unshift(crc) == crc << 1;
    }
  }

  lemma UnshiftBeforeOdd(crc: bv16)
    requires crc & 0x8000 != 0
    ensures Shift(false, ((crc ^ 0xA001) << 1) | 1) == crc
  {
  }

  lemma UnshiftBeforeEven(crc: bv16)
    requires crc & 0x8000 == 0
    ensures Shift(false, crc << 1) == crc
  {
  }

  function ShiftZeros(n: nat, crc: bv16): bv16
    decreases n, crc
  {
    if n == 0 then crc else ShiftZeros(n - 1, Shift(false, crc))
  }

  function UnshiftZeros(n: nat, crc: bv16): bv16
    decreases n, crc
  {
    if n == 0 then crc else Unshift(UnshiftZeros(n - 1, crc))
  }

  lemma {:induction false} UnshiftZerosInverts(n: nat, crc: bv16)
    ensures UnshiftZeros(n, ShiftZeros(n, crc)) == crc
    ensures ShiftZeros(n, UnshiftZeros(n, crc)) == crc
    decreases n
  {
    hide Shift, Unshift;
    if n > 0 {
      UnshiftInverts(crc);
      UnshiftZerosInverts(n - 1, Shift(false, crc));
      UnshiftZerosInverts(n - 1, crc);
      UnshiftInverts(UnshiftZeros(n - 1, crc));
    }
  }

  /** A word is absorbed by adding it to the register and shifting in sixteen zeros. */
  lemma {:induction false} WordAddsToRegister(word: bv16, crc: bv16, n: nat)
    ensures ShiftZeros(n, Sum(crc, word)) == Sum(Divide(LowBits(word, n), crc), ShiftedBy(word, n))
    decreases n
  {
    hide LowBits, Bit, Half, Sum;
    if n > 0 {
      LowBitsFirst(word, n);
      SumIsBitwise(crc, word);
      SumCancels(Half(crc), Half(word), 0xA001);
      assert LowBits(word, n)[1..] == LowBits(Half(word), n - 1);
      assert Shift(false, Sum(crc, word)) == Sum(Shift(Bit(word), crc), Half(word));
      WordAddsToRegister(Half(word), Shift(Bit(word), crc), n - 1);
    }
  }

  lemma CrcOfWordIsSum(word: bv16, crc: bv16)
    ensures CrcOfWord(word, crc) == ShiftZeros(16, Sum(crc, word))
  {
    hide LowBits, Divide, ShiftZeros, ShiftedBy;
    WordAddsToRegister(word, crc, 16);
    NoBitsAfterSixteen(word);
  }

  /** The register before the word went in; by symmetry also the word, given the register. */
  function Uncrc(word: bv16, crc: bv16): bv16 { Sum(UnshiftZeros(16, crc), word) }

  /** For a fixed word the register is mapped one to one onto all registers, and for a fixed
  register so is the word: Uncrc is the two-sided inverse of both. */
  lemma CrcOfWordBijective(word: bv16, crc: bv16)
    ensures Uncrc(word, CrcOfWord(word, crc)) == crc
    ensures CrcOfWord(word, Uncrc(word, crc)) == crc
    ensures Uncrc(crc, CrcOfWord(word, crc)) == word
    ensures CrcOfWord(Uncrc(word, crc), word) == crc
  {
    hide UnshiftZeros, ShiftZeros, CrcOfWord;
    CrcOfWordIsSum(word, crc);
    UnshiftZerosInverts(16, Sum(crc, word));
    UnshiftZerosInverts(16, crc);
    SumTwice(crc, word);
    SumTwice(word, crc);
    SumCommutes(crc, word);
    SumCommutes(Uncrc(word, crc), word);
    SumTwice(UnshiftZeros(16, crc), word);
    CrcOfWordIsSum(word, Uncrc(word, crc));
    CrcOfWordIsSum(Uncrc(word, crc), word);
  }

  lemma {:induction false} RegistersStayApart(words: seq<bv16>, c: bv16, d: bv16)
    ensures CrcOfWords(words, c) == CrcOfWords(words, d) <==> c == d
    decreases |words|
  {
    hide CrcOfWord, Uncrc;
    if words != [] {
      CrcOfWordBijective(words[0], c);
      CrcOfWordBijective(words[0], d);
      RegistersStayApart(words[1..], CrcOfWord(words[0], c), CrcOfWord(words[0], d));
    }
  }

  /** Two messages that differ in exactly one word never have the same CRC. */
  lemma {:induction false} OneChangedWordIsSeen(words: seq<bv16>, k: nat, word: bv16, crc: bv16)
    requires k < |words| && words[k] != word
    ensures CrcOfWords(words[k := word], crc) != CrcOfWords(words, crc)
    decreases k
  {
    hide CrcOfWord, Uncrc;
    var changed := words[k := word];
    if k == 0 {
      assert changed[1..] == words[1..];
      CrcOfWordBijective(word, crc);
      CrcOfWordBijective(words[0], crc);
      RegistersStayApart(words[1..], CrcOfWord(word, crc), CrcOfWord(words[0], crc));
    } else {
      assert changed[1..] == words[1..][k - 1 := word];
      OneChangedWordIsSeen(words[1..], k - 1, word, CrcOfWord(words[0], crc));
    }
  }
}
