/** core_init_state: the text that the state benchmark scans. */
module StateInit {
  import opened StateMachine
  import opened StateBench

  /** The sixteen patterns as bytes: 5012 1234 -874 +122, 35.54400 .1234500 -110.700 +0.64400,
  5.500e+3 -.123e-2 -87e+832 +0.6e-12, T0.3e-1F -T.T++Tq 1T3.4e4z 34.0e-T^. */
  function IntPattern(i: bv16): seq<bv8> {
    if i == 0 then [0x35, 0x30, 0x31, 0x32] else if i == 1 then [0x31, 0x32, 0x33, 0x34]
    else if i == 2 then [0x2d, 0x38, 0x37, 0x34] else [0x2b, 0x31, 0x32, 0x32]
  }

  function FloatPattern(i: bv16): seq<bv8> {
    if i == 0 then [0x33, 0x35, 0x2e, 0x35, 0x34, 0x34, 0x30, 0x30]
    else if i == 1 then [0x2e, 0x31, 0x32, 0x33, 0x34, 0x35, 0x30, 0x30]
    else if i == 2 then [0x2d, 0x31, 0x31, 0x30, 0x2e, 0x37, 0x30, 0x30]
    else [0x2b, 0x30, 0x2e, 0x36, 0x34, 0x34, 0x30, 0x30]
  }

  function SciPattern(i: bv16): seq<bv8> {
    if i == 0 then [0x35, 0x2e, 0x35, 0x30, 0x30, 0x65, 0x2b, 0x33]
    else if i == 1 then [0x2d, 0x2e, 0x31, 0x32, 0x33, 0x65, 0x2d, 0x32]
    else if i == 2 then [0x2d, 0x38, 0x37, 0x65, 0x2b, 0x38, 0x33, 0x32]
    else [0x2b, 0x30, 0x2e, 0x36, 0x65, 0x2d, 0x31, 0x32]
  }

  function ErrPattern(i: bv16): seq<bv8> {
    if i == 0 then [0x54, 0x30, 0x2e, 0x33, 0x65, 0x2d, 0x31, 0x46]
    else if i == 1 then [0x2d, 0x54, 0x2e, 0x54, 0x2b, 0x2b, 0x54, 0x71]
    else if i == 2 then [0x31, 0x54, 0x33, 0x2e, 0x34, 0x65, 0x34, 0x7a]
    else [0x33, 0x34, 0x2e, 0x30, 0x65, 0x2d, 0x54, 0x5e]
  }

  /** The pattern that a seed selects: bits 0-2 the kind, bits 3-4 the variant. */
  function Pattern(seed: bv16): (p: seq<bv8>)
    ensures |p| == 4 || |p| == 8
  {
    var kind, variant := seed & 7, (seed >> 3) & 3;
    if kind < 3 then IntPattern(variant)
    else if kind < 5 then FloatPattern(variant)
    else if kind < 7 then SciPattern(variant)
    else ErrPattern(variant)
  }

  function NextSeed(seed: bv16): bv16 { seed + 1 }

  /** Patterns with commas, starting with the one for this seed, while there is room: one more
  byte than they need must fit before the last byte. */
  function Emitted(room: nat, seed: bv16): (text: seq<bv8>)
    ensures text != [] ==> |text| < room
    decreases room
  {
    var p := Pattern(seed);
    if |p| + 1 < room then p + [COMMA] + Emitted(room - |p| - 1, NextSeed(seed)) else []
  }

  function ZeroBytes(n: nat): (zeros: seq<bv8>)
    ensures |zeros| == n && forall k :: 0 <= k < n ==> zeros[k] == 0
  {
    seq(n, _ => 0)
  }

  function Block(size: nat, seed: bv16): (block: seq<bv8>)
    requires size >= 2
    ensures |block| == size && block[size - 1] == 0 && block[size - 2] == 0
  {
    var text := Emitted(size - 1, NextSeed(seed));
    text + ZeroBytes(size - |text|)
  }

  lemma EmittedStep(done: seq<bv8>, room: nat, seed: bv16)
    ensures var p := Pattern(seed);
      if |p| + 1 < room
      then done + Emitted(room, seed) == (done + (p + [COMMA])) + Emitted(room - |p| - 1, NextSeed(seed))
      else done + Emitted(room, seed) == done
  {
  }

  method InitState(size0: nat, seed0: bv16, p: array<bv8>)
    requires size0 >= 2 && p.Length == size0
    modifies p
    ensures p[..] == Block(size0, seed0)
  {
    hide Pattern, NextSeed, Emitted;
    var total, next, seed := 0, 0, seed0;
    var buf: seq<bv8> := [];
    var size := size0 - 1;
    ghost var goal := Emitted(size, NextSeed(seed0));
    while total + next + 1 < size
      invariant next == |buf| && total < size
      invariant if next == 0 then total == 0 && seed == seed0
                else buf == Pattern(seed) && p[..total] + Emitted(size - total, seed) == goal
      decreases size - total, next == 0
    {
      if next > 0 {
        EmittedStep(p[..total], size - total, seed);
        WriteWithComma(p, total, buf);
        total := total + next + 1;
      }
      seed := NextSeed(seed);
      buf := Pattern(seed);
      next := |buf|;
      assert total == 0 ==> p[..total] == [] && [] + goal == goal;
    }
    if next > 0 {
      EmittedStep(p[..total], size - total, seed);
    } else {
      EmittedStep([], size, NextSeed(seed0));
      assert p[..total] == [] == [] + goal;
    }
    size := size + 1;
    FillZeros(p, total);
  }

  method WriteWithComma(p: array<bv8>, total: nat, buf: seq<bv8>)
    requires total + |buf| < p.Length
    modifies p
    ensures p[..total + |buf| + 1] == old(p[..total]) + (buf + [COMMA])
  {
    for i := 0 to |buf|
      invariant p[..total] == old(p[..total]) && p[total..total + i] == buf[..i]
    {
      p[total + i] := buf[i];
    }
    p[total + |buf|] := COMMA;
  }

  method FillZeros(p: array<bv8>, total0: nat)
    requires total0 <= p.Length
    modifies p
    ensures p[..] == old(p[..total0]) + ZeroBytes(p.Length - total0)
  {
    var total := total0;
    while total < p.Length
      invariant total0 <= total <= p.Length
      invariant p[..total] == old(p[..total0]) + ZeroBytes(total - total0)
    {
      p[total] := 0;
      total := total + 1;
    }
  }

  // ---------- the block in its own terms ----------

  function SeedAfter(seed: bv16, i: nat): bv16 { if i == 0 then seed else SeedAfter(seed, i - 1) + 1 }

  /** The patterns for the m seeds after this one, each with a comma. */
  function Listed(seed: bv16, m: nat): seq<bv8> {
    if m == 0 then [] else Listed(seed, m - 1) + (Pattern(SeedAfter(seed, m)) + [0x2c])
  }

  lemma ListedGrows(seed: bv16, m: nat)
    ensures Listed(seed, m + 1) == Listed(seed, m) + (Pattern(SeedAfter(seed, m + 1)) + [0x2c])
    ensures |Listed(seed, m + 1)| == |Listed(seed, m)| + |Pattern(SeedAfter(seed, m + 1))| + 1
    ensures SeedAfter(seed, m + 2) == NextSeed(SeedAfter(seed, m + 1))
  {
  }

  /** What is emitted when the first m patterns are in place. */
  function Finished(size: nat, seed: bv16, m: nat): seq<bv8>
    requires |Listed(seed, m)| <= size
  {
    Listed(seed, m) + Emitted(size - |Listed(seed, m)|, SeedAfter(seed, m + 1))
  }

  lemma FinishedStep(size: nat, seed: bv16, m: nat)
    requires |Listed(seed, m)| <= size
    ensures if |Listed(seed, m + 1)| < size then Finished(size, seed, m) == Finished(size, seed, m + 1)
            else Finished(size, seed, m) == Listed(seed, m)
  {
    ListedGrows(seed, m);
    EmittedStep(Listed(seed, m), size - |Listed(seed, m)|, SeedAfter(seed, m + 1));
    hide Pattern, Emitted, Listed, SeedAfter, NextSeed;
  }

  lemma {:induction false} FinishedIsListed(size: nat, seed: bv16, m: nat) returns (n: nat)
    requires |Listed(seed, m)| <= size
    ensures n >= m && |Listed(seed, n)| <= size <= |Listed(seed, n + 1)|
    ensures n > m ==> |Listed(seed, n)| < size
    ensures Finished(size, seed, m) == Listed(seed, n)
    decreases size - |Listed(seed, m)|
  {
    ListedGrows(seed, m);
    FinishedStep(size, seed, m);
    hide *;
    if |Listed(seed, m + 1)| < size {
      n := FinishedIsListed(size, seed, m + 1);
    } else {
      n := m;
    }
  }

  lemma FinishedAtStart(size: nat, seed: bv16)
    ensures Listed(seed, 0) == [] && Finished(size, seed, 0) == Emitted(size, NextSeed(seed))
  {
    assert Listed(seed, 0) == [] && SeedAfter(seed, 1) == NextSeed(seed);
    hide Pattern, Emitted, NextSeed, SeedAfter, Listed;
    var text := Emitted(size, NextSeed(seed));
    assert [] + text == text;
  }

  /** As many patterns as leave room for two zeros, starting with that for the next seed; then zeros. */
  lemma BlockIsListed(size: nat, seed: bv16) returns (m: nat)
    requires size >= 2
    ensures |Listed(seed, m)| <= size - 2 < |Listed(seed, m + 1)|
    ensures Block(size, seed) == Listed(seed, m) + ZeroBytes(size - |Listed(seed, m)|)
  {
    FinishedAtStart(size - 1, seed);
    hide Finished, Listed, Emitted, NextSeed;
    m := FinishedIsListed(size - 1, seed, 0);
  }

  /** The ASCII codes of a text. */
  predicate Spells(p: seq<bv8>, s: string) {
    |p| == |s| && forall k :: 0 <= k < |s| ==> p[k] as int == s[k] as int
  }

  /** Bits 0-2 of the seed select an integer (0 to 2), a float (3, 4), a scientific number (5, 6) or an error (7). */
  lemma PatternKind(seed: bv16)
    ensures seed & 0x0007 < 3 ==> Pattern(seed) == IntPattern((seed / 8) & 3)
    ensures seed & 0x0007 == 3 || seed & 0x0007 == 4 ==> Pattern(seed) == FloatPattern((seed / 8) & 3)
    ensures seed & 0x0007 == 5 || seed & 0x0007 == 6 ==> Pattern(seed) == SciPattern((seed / 8) & 3)
    ensures seed & 0x0007 == 7 ==> Pattern(seed) == ErrPattern((seed / 8) & 3)
  {
  }

  lemma IntPatternSpelling()
    ensures Spells(IntPattern(0), "5012") && Spells(IntPattern(1), "1234")
    ensures Spells(IntPattern(2), "-874") && Spells(IntPattern(3), "+122")
  {
  }

  lemma FloatPatternSpelling()
    ensures Spells(FloatPattern(0), "35.54400") && Spells(FloatPattern(1), ".1234500")
    ensures Spells(FloatPattern(2), "-110.700") && Spells(FloatPattern(3), "+0.64400")
  {
  }

  lemma SciPatternSpelling()
    ensures Spells(SciPattern(0), "5.500e+3") && Spells(SciPattern(1), "-.123e-2")
    ensures Spells(SciPattern(2), "-87e+832") && Spells(SciPattern(3), "+0.6e-12")
  {
  }

  lemma ErrPatternSpelling()
    ensures Spells(ErrPattern(0), "T0.3e-1F") && Spells(ErrPattern(1), "-T.T++Tq")
    ensures Spells(ErrPattern(2), "1T3.4e4z") && Spells(ErrPattern(3), "34.0e-T^")
  {
  }

  /** On a block built by core_init_state, both scans stop at a zero inside it. */
  lemma BothScansStop(size: nat, seed: bv16, seed1: bv8, step: nat)
    requires size >= 2 && step >= 2
    ensures Terminated(Block(size, seed)) && Terminated(Corrupted(Block(size, seed), seed1, step))
  {
    var block := Block(size, seed);
    assert block[size - 1] == 0;
    CorruptedTerminated(block, seed1, step);
  }

  lemma NoNineInPattern(seed: bv16)
    ensures forall k :: 0 <= k < |Pattern(seed)| ==> Pattern(seed)[k] != 0x39
  {
  }

  lemma {:induction false} NoNineEmitted(room: nat, seed: bv16)
    ensures forall k :: 0 <= k < |Emitted(room, seed)| ==> Emitted(room, seed)[k] != 0x39
    decreases room
  {
    hide Pattern, NextSeed;
    var p := Pattern(seed);
    if |p| + 1 < room {
      NoNineInPattern(seed);
      NoNineEmitted(room - |p| - 1, NextSeed(seed));
    }
  }

  /** The seeds of the validation and performance runs have low bytes 0 and 0x15. Both undo
  their corruption, in every block and with every stride. */
  lemma OfficialSeedsRestore(size: nat, seed: bv16, low: bv8, step: nat)
    requires size >= 2 && step > 0 && (low == 0 || low == 0x15)
    ensures var block := Block(size, seed); Corrupted(Corrupted(block, low, step), low, step) == block
  {
    var block := Block(size, seed);
    NoNineEmitted(size - 1, NextSeed(seed));
    CommaUnder(low);
    hide Emitted, Xor, Visited;
    forall k | 0 <= k < |block| && Visited(k, step) && block[k] != COMMA
      ensures block[k] != Xor(COMMA, low)
    {
      assert k >= |Emitted(size - 1, NextSeed(seed))| ==> block[k] == 0;
    }
    RestoredIff(block, low, low, step);
  }

  lemma CommaUnder(low: bv8)
    requires low == 0 || low == 0x15
    ensures Xor(COMMA, low) == if low == 0 then COMMA else 0x39
  {
  }

  /** Equal seeds are not enough: with low byte 0x2c the zeros of the smallest block turn into
  commas, and the second pass leaves commas alone. */
  lemma EqualSeedsNotEnough(seed: bv16)
    ensures var block := Block(2, seed); Corrupted(Corrupted(block, 0x2c, 2), 0x2c, 2) != block
  {
  }

  // ---------- the patterns are what they are called ----------

  lemma IntPatternIsInt(i: bv16)
    ensures Denotes(IntPattern(i), Int)
  {
  }

  lemma DotAmongDigits(u: seq<bv8>, k: nat)
    requires k < |u| && IsDot(u[k]) && forall j :: 0 <= j < |u| && j != k ==> IsDigit(u[j])
    ensures DottedAt(u, k)
  {
  }

  lemma FloatPatternIsFloat(i: bv16)
    ensures Denotes(FloatPattern(i), Float)
  {
    var u := Unsigned(FloatPattern(i));
    if i == 0 {
      assert u == [0x33, 0x35, 0x2e, 0x35, 0x34, 0x34, 0x30, 0x30];
      DotAmongDigits(u, 2);
    } else if i == 1 {
      assert u == [0x2e, 0x31, 0x32, 0x33, 0x34, 0x35, 0x30, 0x30];
      DotAmongDigits(u, 0);
    } else if i == 2 {
      assert u == [0x31, 0x31, 0x30, 0x2e, 0x37, 0x30, 0x30];
      DotAmongDigits(u, 3);
    } else {
      assert u == [0x30, 0x2e, 0x36, 0x34, 0x34, 0x30, 0x30];
      DotAmongDigits(u, 1);
    }
  }

  lemma ExponentBehind(m: seq<bv8>, e: bv8, sign: bv8, ds: seq<bv8>)
    requires IsFloat(m) && IsE(e) && IsSign(sign) && Digits(ds) && ds != []
    ensures IsScientific(m + [e, sign] + ds)
  {
    var w, k := m + [e, sign] + ds, |m| + 2;
    assert w[..k] == m + [e, sign] && w[k..] == ds;
    assert Init(w[..k]) == m + [e] && Last(w[..k]) == sign && Init(m + [e]) == m && Last(m + [e]) == e;
    assert IsFloatE(m + [e]) && IsFloatESign(w[..k]);
    assert ExponentAt(w, k);
  }

  lemma UnsignedNumeral(c: bv8, m: seq<bv8>)
    ensures !IsSign(c) ==> Unsigned([c] + m) == [c] + m
    ensures IsSign(c) ==> Unsigned([c] + m) == m
  {
  }

  lemma SciPatternIsScientific(i: bv16)
    requires i != 2
    ensures Denotes(SciPattern(i), Scientific)
  {
    hide IsScientific, Unsigned, Digits;
    if i == 0 {
      UnsignedNumeral(0x35, [0x2e, 0x35, 0x30, 0x30]);
      DotAmongDigits([0x35] + [0x2e, 0x35, 0x30, 0x30], 1);
      DigitsOf([0x33]);
      ExponentBehind([0x35] + [0x2e, 0x35, 0x30, 0x30], 0x65, 0x2b, [0x33]);
      assert SciPattern(i) == [0x35] + [0x2e, 0x35, 0x30, 0x30] + [0x65, 0x2b] + [0x33];
    } else if i == 1 {
      UnsignedNumeral(0x2d, [0x2e, 0x31, 0x32, 0x33]);
      DotAmongDigits([0x2e, 0x31, 0x32, 0x33], 0);
      DigitsOf([0x32]);
      ExponentBehind([0x2d] + [0x2e, 0x31, 0x32, 0x33], 0x65, 0x2d, [0x32]);
      assert SciPattern(i) == [0x2d] + [0x2e, 0x31, 0x32, 0x33] + [0x65, 0x2d] + [0x32];
    } else {
      UnsignedNumeral(0x2b, [0x30, 0x2e, 0x36]);
      DotAmongDigits([0x30, 0x2e, 0x36], 1);
      DigitsOf([0x31, 0x32]);
      ExponentBehind([0x2b] + [0x30, 0x2e, 0x36], 0x65, 0x2d, [0x31, 0x32]);
      assert SciPattern(i) == [0x2b] + [0x30, 0x2e, 0x36] + [0x65, 0x2d] + [0x31, 0x32];
    }
  }

  lemma DigitsOf(ds: seq<bv8>)
    requires forall k :: 0 <= k < |ds| ==> IsDigit(ds[k])
    ensures Digits(ds)
  {
  }

  /** The third scientific pattern, -87e+832, has no dot: the scanner gives up at the e. */
  lemma ThirdSciPatternIsInvalid(rest: seq<bv8>)
    ensures TokenState(SciPattern(2) + rest, Start) == Invalid && TokenLength(SciPattern(2) + rest, Start) == 4
  {
    var t0 := SciPattern(2) + rest;
    var t1, t2, t3 := t0[1..], t0[2..], t0[3..];
    assert t0[0] == 0x2d && t1[0] == 0x38 && t2[0] == 0x37 && t3[0] == 0x65;
    TokenStep(t0, Start);
    TokenStep(t1, S1);
    TokenStep(t2, Int);
    TokenStep(t3, Int);
    assert Next(Start, 0x2d) == S1 && Next(S1, 0x38) == Int && Next(Int, 0x37) == Int && Next(Int, 0x65) == Invalid;
    assert t0[1..] == t1 && t1[1..] == t2 && t2[1..] == t3;
  }

  lemma TokenStep(text: seq<bv8>, s: CoreState)
    requires text != [] && text[0] != 0 && text[0] != COMMA && s != Invalid
    ensures TokenLength(text, s) == 1 + TokenLength(text[1..], Next(s, text[0]))
    ensures TokenState(text, s) == TokenState(text[1..], Next(s, text[0]))
    ensures TokenLength(text[1..], Invalid) == 0 && TokenState(text[1..], Invalid) == Invalid
  {
  }

  /** What a pattern is called. */
  function Kind(seed: bv16): CoreState {
    var kind := seed & 7;
    if kind < 3 then Int else if kind < 5 then Float else if kind < 7 then Scientific else Invalid
  }

  /** Every pattern but that one and the four broken ones is one token of its kind. */
  lemma PatternIsOneToken(seed: bv16, rest: seq<bv8>)
    requires Kind(seed) != Invalid && !(Kind(seed) == Scientific && (seed >> 3) & 3 == 2)
    ensures TokenLength(Pattern(seed) + [COMMA] + rest, Start) == |Pattern(seed)| + 1
    ensures TokenState(Pattern(seed) + [COMMA] + rest, Start) == Kind(seed)
  {
    var variant := (seed >> 3) & 3;
    IntPatternIsInt(variant);
    FloatPatternIsFloat(variant);
    if variant != 2 {
      SciPatternIsScientific(variant);
    }
    PatternBytes(seed);
    hide IntPattern, FloatPattern, SciPattern, ErrPattern, Denotes;
    StateMeaning(Pattern(seed), Kind(seed));
    WholeToken(Start, Pattern(seed), rest);
  }

  lemma PatternBytes(seed: bv16)
    ensures forall k :: 0 <= k < |Pattern(seed)| ==> Pattern(seed)[k] != 0 && Pattern(seed)[k] != COMMA
  {
  }
}
