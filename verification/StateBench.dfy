/** core_bench_state: scan the block, corrupt it, scan again, undo the corruption. */
module StateBench {
  import opened Crc
  import opened StateMachine

  // ---------- one call of the scanner ----------

  /** Arithmetic of ee_u32. */
  function Wrap(n: nat): u32 { n % 0x1_0000_0000 }

  function Increment(c: u32): u32 { if c == 0xffff_ffff then 0 else c + 1 }

  lemma WrapSum(a: nat, b: nat)
    ensures Wrap(Wrap(a) + b) == Wrap(a + b)
  {
  }

  lemma WrapSelf(c: u32)
    ensures Wrap(c) == c
  {
  }

  lemma AllWrapSelf()
    ensures forall c: u32 :: Wrap(c) == c
  {
    forall c: u32 {
      WrapSelf(c);
    }
  }

  lemma IncrementSum(c: u32, b: nat)
    ensures Wrap(Increment(c) + b) == Wrap(c + (1 + b)) && Increment(c) == Wrap((c as nat) + 1)
  {
  }

  /** The counters of an array of NUM_CORE_STATES. */
  ghost predicate Counted(counts: array<u32>, before: seq<u32>, k: CoreState, more: nat)
    reads counts
    requires counts.Length == |before| == 8
  {
    counts[Index(k)] == Wrap(before[Index(k)] + more)
  }

  /** The switch of core_state_transition. */
  method ReadSymbol(state0: CoreState, symbol: bv8, counts: array<u32>) returns (state: CoreState)
    requires counts.Length == 8
    modifies counts
    ensures state == Next(state0, symbol)
    ensures forall k :: Counted(counts, old(counts[..]), k, Tracked(state0, symbol, k))
  {
    hide IsDigit, IsSign, IsDot, IsE, Wrap, Increment;
    ClassesDisjoint(symbol);
    forall c: u32
      ensures Increment(c) == Wrap((c as nat) + 1)
    {
      IncrementSum(c, 0);
    }
    AllWrapSelf();
    state := state0;
    match state0
    case Start =>
      if IsDigit(symbol) {
        state := Int;
      } else if IsSign(symbol) {
        state := S1;
      } else if IsDot(symbol) {
        state := Float;
      } else {
        state := Invalid;
        counts[Index(Invalid)] := Increment(counts[Index(Invalid)]);
      }
      counts[Index(Start)] := Increment(counts[Index(Start)]);
    case S1 =>
      if IsDigit(symbol) {
        state := Int;
        counts[Index(S1)] := Increment(counts[Index(S1)]);
      } else if IsDot(symbol) {
        state := Float;
        counts[Index(S1)] := Increment(counts[Index(S1)]);
      } else {
        state := Invalid;
        counts[Index(S1)] := Increment(counts[Index(S1)]);
      }
    case Int =>
      if IsDot(symbol) {
        state := Float;
        counts[Index(Int)] := Increment(counts[Index(Int)]);
      } else if !IsDigit(symbol) {
        state := Invalid;
        counts[Index(Int)] := Increment(counts[Index(Int)]);
      }
    case Float =>
      if IsE(symbol) {
        state := S2;
        counts[Index(Float)] := Increment(counts[Index(Float)]);
      } else if !IsDigit(symbol) {
        state := Invalid;
        counts[Index(Float)] := Increment(counts[Index(Float)]);
      }
    case S2 =>
      if IsSign(symbol) {
        state := Exponent;
        counts[Index(S2)] := Increment(counts[Index(S2)]);
      } else {
        state := Invalid;
        counts[Index(S2)] := Increment(counts[Index(S2)]);
      }
    case Exponent =>
      if IsDigit(symbol) {
        state := Scientific;
        counts[Index(Exponent)] := Increment(counts[Index(Exponent)]);
      } else {
        state := Invalid;
        counts[Index(Exponent)] := Increment(counts[Index(Exponent)]);
      }
    case Scientific =>
      if !IsDigit(symbol) {
        state := Invalid;
        counts[Index(Invalid)] := Increment(counts[Index(Invalid)]);
      }
    case Invalid =>
  }

  predicate Terminated(text: seq<bv8>) { exists k :: 0 <= k < |text| && text[k] == 0 }

  /** core_state_transition on the text from position p on; the text must be terminated inside
  the block. */
  method Transition(mem: array<bv8>, p: nat, counts: array<u32>) returns (str: nat, state: CoreState)
    requires mem as object != counts && counts.Length == 8
    requires p <= mem.Length && Terminated(mem[p..])
    modifies counts
    ensures str == p + TokenLength(mem[p..], Start) <= mem.Length
    ensures state == TokenState(mem[p..], Start)
    ensures forall k :: Counted(counts, old(counts[..]), k, TokenTracked(mem[p..], Start, k))
    ensures Terminated(mem[str..])
  {
    hide Next, Tracked, Wrap, Index;
    str, state := p, Start;
    ghost var text := mem[..];
    assert text[p..] == mem[p..];
    while mem[str] != 0 && state != Invalid
      invariant p <= str < mem.Length && mem[..] == text && Terminated(text[str..])
      invariant TokenLength(text[p..], Start) == str - p + TokenLength(text[str..], state)
      invariant TokenState(text[p..], Start) == TokenState(text[str..], state)
      invariant forall k :: Wrap(counts[Index(k)] + TokenTracked(text[str..], state, k)) ==
                            Wrap(old(counts[..])[Index(k)] + TokenTracked(text[p..], Start, k))
      decreases mem.Length - str
    {
      var symbol := mem[str];
      assert text[str..][1..] == text[str + 1..];
      RestTerminated(text[str..]);
      if symbol == COMMA {
        str := str + 1;
        break;
      }
      ghost var before, state0 := counts[..], state;
      state := ReadSymbol(state, symbol, counts);
      str := str + 1;
      forall k {
        WrapSum(before[Index(k)] + Tracked(state0, symbol, k), TokenTracked(text[str..], state, k));
      }
    }
    AllWrapSelf();
    assert text[str..] == mem[str..];
  }

  lemma RestTerminated(text: seq<bv8>)
    requires Terminated(text)
    ensures text != [] && (text[0] != 0 ==> Terminated(text[1..]))
  {
  }

  function CountOf(state: CoreState, k: CoreState): nat { if state == k then 1 else 0 }

  /** The first token of the rest has been counted under its state, and its transitions under theirs. */
  ghost predicate TokenCounted(final: seq<u32>, final0: seq<u32>, track: seq<u32>, track0: seq<u32>, rest: seq<bv8>)
    requires |final| == |final0| == |track| == |track0| == 8
  {
    forall k :: final[Index(k)] == Wrap(final0[Index(k)] + CountOf(TokenState(rest, Start), k)) &&
                track[Index(k)] == Wrap(track0[Index(k)] + TokenTracked(rest, Start, k))
  }

  /** One token of a scan. */
  method ScanToken(mem: array<bv8>, p0: nat, finalCounts: array<u32>, trackCounts: array<u32>) returns (p: nat)
    requires finalCounts != trackCounts && mem as object != finalCounts && mem as object != trackCounts
    requires finalCounts.Length == trackCounts.Length == 8
    requires p0 <= mem.Length && Terminated(mem[p0..])
    modifies finalCounts, trackCounts
    ensures p == p0 + TokenLength(mem[p0..], Start) <= mem.Length && Terminated(mem[p..])
    ensures TokenCounted(finalCounts[..], old(finalCounts[..]), trackCounts[..], old(trackCounts[..]), mem[p0..])
  {
    hide TokenLength, TokenState, TokenTracked, Wrap, Increment;
    AllWrapSelf();
    var fstate;
    p, fstate := Transition(mem, p0, trackCounts);
    IncrementSum(finalCounts[Index(fstate)], 0);
    finalCounts[Index(fstate)] := Increment(finalCounts[Index(fstate)]);
  }

  /** What has been counted of a text whose rest is still to be scanned. */
  ghost predicate Tally(final: seq<u32>, final0: seq<u32>, track: seq<u32>, track0: seq<u32>,
                        rest: seq<bv8>, text: seq<bv8>)
    requires |final| == |final0| == |track| == |track0| == 8
  {
    (forall k :: Wrap(final[Index(k)] + FinalCount(rest, k)) == Wrap(final0[Index(k)] + FinalCount(text, k))) &&
    forall k :: Wrap(track[Index(k)] + TrackCount(rest, k)) == Wrap(track0[Index(k)] + TrackCount(text, k))
  }

  lemma TallyStep(final': seq<u32>, final: seq<u32>, final0: seq<u32>,
                  track': seq<u32>, track: seq<u32>, track0: seq<u32>,
                  rest: seq<bv8>, text: seq<bv8>)
    requires |final'| == |final| == |final0| == |track'| == |track| == |track0| == 8
    requires rest != [] && rest[0] != 0 && Tally(final, final0, track, track0, rest, text)
    requires TokenCounted(final', final, track', track, rest)
    ensures Tally(final', final0, track', track0, rest[TokenLength(rest, Start)..], text)
  {
    hide Wrap, Index, TokenLength, TokenState, TokenTracked;
    TokenAdvances(rest);
    var rest' := rest[TokenLength(rest, Start)..];
    forall k {
      WrapSum(final[Index(k)] + CountOf(TokenState(rest, Start), k), FinalCount(rest', k));
    }
    forall k {
      WrapSum(track[Index(k)] + TokenTracked(rest, Start, k), TrackCount(rest', k));
    }
  }

  lemma TallyDone(final: seq<u32>, final0: seq<u32>, track: seq<u32>, track0: seq<u32>, rest: seq<bv8>, text: seq<bv8>)
    requires |final| == |final0| == |track| == |track0| == 8 && rest != [] && rest[0] == 0
    requires Tally(final, final0, track, track0, rest, text)
    ensures forall k :: final[Index(k)] == Wrap(final0[Index(k)] + FinalCount(text, k))
    ensures forall k :: track[Index(k)] == Wrap(track0[Index(k)] + TrackCount(text, k))
  {
    hide Wrap, Index;
    AllWrapSelf();
  }

  /** A whole scan: every token is counted under the state it ends in. */
  method Scan(mem: array<bv8>, finalCounts: array<u32>, trackCounts: array<u32>)
    requires finalCounts != trackCounts && mem as object != finalCounts && mem as object != trackCounts
    requires finalCounts.Length == trackCounts.Length == 8 && Terminated(mem[..])
    modifies finalCounts, trackCounts
    ensures forall k :: Counted(finalCounts, old(finalCounts[..]), k, FinalCount(mem[..], k))
    ensures forall k :: Counted(trackCounts, old(trackCounts[..]), k, TrackCount(mem[..], k))
  {
    var p := 0;
    ghost var text, final0, track0 := mem[..], finalCounts[..], trackCounts[..];
    assert text[0..] == text;
    assert Tally(final0, final0, track0, track0, text, text);
    hide TokenLength, TokenState, TokenTracked, TokenCounted, Wrap, Index, Tally, FinalCount, TrackCount, Terminated;
    RestTerminated(text);
    while mem[p] != 0
      invariant p < mem.Length && mem[..] == text && Terminated(text[p..])
      invariant Tally(finalCounts[..], final0, trackCounts[..], track0, text[p..], text)
      decreases mem.Length - p
    {
      ghost var rest, final, track := text[p..], finalCounts[..], trackCounts[..];
      TokenAdvances(rest);
      assert mem[p..] == rest;
      p := ScanToken(mem, p, finalCounts, trackCounts);
      assert text[p..] == rest[TokenLength(rest, Start)..] == mem[p..];
      TallyStep(finalCounts[..], final, final0, trackCounts[..], track, track0, rest, text);
      RestTerminated(text[p..]);
    }
    TallyDone(finalCounts[..], final0, trackCounts[..], track0, text[p..], text);
  }

  // ---------- corruption ----------

  /** Position k is reached from the start of the block in strides of step. */
  predicate Visited(k: nat, step: nat)
    requires step > 0
  {
    k == 0 || (k >= step && Visited(k - step, step))
  }

  function Xor(a: bv8, b: bv8): bv8 { a ^ b }

  function CorruptByte(b: bv8, seed: bv8): bv8 { if b != COMMA then Xor(b, seed) else b }

  function Corrupted(text: seq<bv8>, seed: bv8, step: nat): (t: seq<bv8>)
    requires step > 0
    ensures |t| == |text|
    ensures forall k :: 0 <= k < |text| ==> t[k] == if Visited(k, step) then CorruptByte(text[k], seed) else text[k]
  {
    seq(|text|, k requires 0 <= k < |text| => if Visited(k, step) then CorruptByte(text[k], seed) else text[k])
  }

  method Corrupt(mem: array<bv8>, seed: bv8, step: nat)
    requires step > 0
    modifies mem
    ensures mem[..] == Corrupted(old(mem[..]), seed, step)
  {
    hide CorruptByte, Visited;
    ghost var text := mem[..];
    var p := 0;
    VisitedNext(0, step);
    while p < mem.Length
      invariant 0 <= p && Visited(p, step)
      invariant forall k :: 0 <= k < mem.Length ==>
        mem[k] == if k < p && Visited(k, step) then CorruptByte(text[k], seed) else text[k]
    {
      var b := XorUnlessComma(mem[p], seed);
      mem[p] := b;
      VisitedNext(p, step);
      p := p + step;
    }
  }

  method XorUnlessComma(b: bv8, seed: bv8) returns (c: bv8)
    ensures c == CorruptByte(b, seed)
  {
    c := b;
    if b != COMMA {
      c := b ^ seed;
    }
  }

  /** The positions visited are step apart. */
  lemma VisitedNext(p: nat, step: nat)
    requires step > 0
    ensures Visited(0, step)
    ensures Visited(p, step) ==> Visited(p + step, step) && forall k :: p < k < p + step ==> !Visited(k, step)
  {
    if Visited(p, step) {
      forall k | p < k < p + step
        ensures !Visited(k, step)
      {
        NotVisitedBetween(p, k, step);
      }
    }
  }

  lemma {:induction false} NotVisitedBetween(p: nat, k: nat, step: nat)
    requires step > 0 && Visited(p, step) && p < k < p + step
    ensures !Visited(k, step)
  {
    if p > 0 {
      NotVisitedBetween(p - step, k - step, step);
    }
  }

  predicate IsMultiple(k: nat, step: nat)
    requires step > 0
  {
    k % step == 0
  }

  lemma {:induction false} VisitedIsMultiple(k: nat, step: nat)
    requires step > 0
    ensures Visited(k, step) <==> IsMultiple(k, step)
  {
    if k < step {
      assert k % step == k;
    } else {
      VisitedIsMultiple(k - step, step);
      SameRemainder(k, step);
    }
  }

  lemma SameRemainder(k: nat, step: nat)
    requires 0 < step <= k
    ensures k % step == (k - step) % step
  {
    var q, r := (k - step) / step, (k - step) % step;
    assert k == step * (q + 1) + r;
    var d := k / step - (q + 1);
    assert step * d == r - k % step;
    assert d == 0;
  }

  /** Exactly the bytes at multiples of the step that are no commas are XORed. */
  lemma CorruptedByte(text: seq<bv8>, seed: bv8, step: nat, k: nat)
    requires step > 0 && k < |text|
    ensures Corrupted(text, seed, step)[k] == if IsMultiple(k, step) && text[k] != 0x2c then text[k] ^ seed else text[k]
  {
    hide Visited, IsMultiple;
    VisitedIsMultiple(k, step);
  }

  // ---------- what corruption does, and when it is undone ----------

  /** With strides of at least two, one of the last two zeros survives: the second scan stops
  inside the block, whatever was corrupted before. */
  lemma CorruptedTerminated(text: seq<bv8>, seed: bv8, step: nat)
    requires step >= 2 && |text| >= 2 && text[|text| - 1] == 0 && text[|text| - 2] == 0
    ensures Terminated(Corrupted(text, seed, step))
  {
    var n := |text|;
    VisitedNext(n - 2, step);
    if Visited(n - 2, step) {
      assert Corrupted(text, seed, step)[n - 1] == 0;
    } else {
      assert Corrupted(text, seed, step)[n - 2] == 0;
    }
  }

  lemma ByteRestored(b: bv8, seed1: bv8, seed2: bv8)
    ensures CorruptByte(CorruptByte(b, seed1), seed2) == b <==>
            b == COMMA || (seed1 == seed2 && b != Xor(COMMA, seed1))
  {
    hide Xor;
    var c := Xor(b, seed1);
    XorTwice(b, seed1);
    XorTwice(COMMA, seed1);
    if Xor(c, seed2) == b {
      XorInjective(c, seed1, seed2);
    }
  }

  lemma XorTwice(a: bv8, b: bv8)
    ensures Xor(Xor(a, b), b) == a
  {
  }

  lemma XorInjective(a: bv8, b: bv8, c: bv8)
    requires Xor(a, b) == Xor(a, c)
    ensures b == c
  {
  }

  /** The block is restored exactly when, for every byte visited that is no comma, both seeds
  agree and corruption did not turn the byte into a comma. */
  lemma RestoredIff(text: seq<bv8>, seed1: bv8, seed2: bv8, step: nat)
    requires step > 0
    ensures Corrupted(Corrupted(text, seed1, step), seed2, step) == text <==>
            forall k :: 0 <= k < |text| && Visited(k, step) && text[k] != COMMA ==>
              seed1 == seed2 && text[k] != Xor(COMMA, seed1)
  {
    hide CorruptByte, Visited, Xor;
    var twice := Corrupted(Corrupted(text, seed1, step), seed2, step);
    forall k | 0 <= k < |text|
      ensures twice[k] == text[k] <==>
              (Visited(k, step) && text[k] != COMMA ==> seed1 == seed2 && text[k] != Xor(COMMA, seed1))
    {
      ByteRestored(text[k], seed1, seed2);
    }
  }

  // ---------- the benchmark ----------

  function StateAt(i: nat): (s: CoreState)
    requires i < 8
    ensures Index(s) == i
  {
    match i
    case 0 => Start
    case 1 => Invalid
    case 2 => S1
    case 3 => S2
    case 4 => Int
    case 5 => Float
    case 6 => Exponent
    case _ => Scientific
  }

  /** The two counters of every state from i on. */
  function CrcOfCounts(final: seq<u32>, track: seq<u32>, i: nat, crc: bv16): bv16
    requires |final| == |track| == 8 && i <= 8
    decreases 8 - i
  {
    if i == 8 then crc else CrcOfCounts(final, track, i + 1, CrcOfLong(track[i], CrcOfLong(final[i], crc)))
  }

  /** The words that the CRC takes in: for each state from i on the final counter, then the transition counter, each
  its low half first. */
  function CounterWords(final: seq<u32>, track: seq<u32>, i: nat): seq<bv16>
    requires |final| == |track| == 8 && i <= 8
    decreases 8 - i
  {
    if i == 8 then []
    else
      [(final[i] % 0x1_0000) as bv16, (final[i] / 0x1_0000) as bv16,
       (track[i] % 0x1_0000) as bv16, (track[i] / 0x1_0000) as bv16] + CounterWords(final, track, i + 1)
  }

  lemma {:induction false} CrcOfCountsIs(final: seq<u32>, track: seq<u32>, i: nat, crc: bv16)
    requires |final| == |track| == 8 && i <= 8
    ensures CrcOfCounts(final, track, i, crc) == CrcOfWords(CounterWords(final, track, i), crc)
    decreases 8 - i
  {
    hide CrcOfWord, CrcOfWords;
    NoWords(crc);
    if i < 8 {
      CrcOfCountsIs(final, track, i + 1, CrcOfLong(track[i], CrcOfLong(final[i], crc)));
      FourWords(LowWord(final[i]), HighWord(final[i]), LowWord(track[i]), HighWord(track[i]),
                CounterWords(final, track, i + 1), crc);
    }
  }

  lemma NoWords(crc: bv16)
    ensures CrcOfWords([], crc) == crc
  {
  }

  lemma FourWords(a: bv16, b: bv16, c: bv16, d: bv16, rest: seq<bv16>, crc: bv16)
    ensures CrcOfWords([a, b, c, d] + rest, crc) ==
            CrcOfWords(rest, CrcOfWord(d, CrcOfWord(c, CrcOfWord(b, CrcOfWord(a, crc)))))
  {
    hide CrcOfWord;
    assert [a, b, c, d] + rest == [a] + ([b] + ([c] + ([d] + rest)));
    OneWord(a, [b] + ([c] + ([d] + rest)), crc);
    OneWord(b, [c] + ([d] + rest), CrcOfWord(a, crc));
    OneWord(c, [d] + rest, CrcOfWord(b, CrcOfWord(a, crc)));
    OneWord(d, rest, CrcOfWord(c, CrcOfWord(b, CrcOfWord(a, crc))));
  }

  lemma OneWord(a: bv16, rest: seq<bv16>, crc: bv16)
    ensures CrcOfWords([a] + rest, crc) == CrcOfWords(rest, CrcOfWord(a, crc))
  {
  }

  /** The counters after scans of two texts. */
  function FinalCounts(first: seq<bv8>, second: seq<bv8>): (counts: seq<u32>)
    ensures |counts| == 8
  {
    seq(8, i requires 0 <= i < 8 => Wrap(FinalCount(first, StateAt(i)) + FinalCount(second, StateAt(i))))
  }

  function TrackCounts(first: seq<bv8>, second: seq<bv8>): (counts: seq<u32>)
    ensures |counts| == 8
  {
    seq(8, i requires 0 <= i < 8 => Wrap(TrackCount(first, StateAt(i)) + TrackCount(second, StateAt(i))))
  }

  /** In the order of the enumerators. */
  lemma CountersInOrder(first: seq<bv8>, second: seq<bv8>, i: nat)
    requires i < 8
    ensures var k := [Start, Invalid, S1, S2, Int, Float, Exponent, Scientific][i];
            FinalCounts(first, second)[i] == (FinalCount(first, k) + FinalCount(second, k)) % 0x1_0000_0000 &&
            TrackCounts(first, second)[i] == (TrackCount(first, k) + TrackCount(second, k)) % 0x1_0000_0000
  {
    hide FinalCount, TrackCount;
  }

  /** The block is scanned, corrupted, scanned, and corrupted with the second seed. */
  method BenchState(mem: array<bv8>, seed1: bv8, seed2: bv8, step: nat, crc0: bv16) returns (crc: bv16)
    requires step >= 2 && mem.Length >= 2 && mem[mem.Length - 1] == 0 && mem[mem.Length - 2] == 0
    modifies mem
    ensures mem[..] == Corrupted(Corrupted(old(mem[..]), seed1, step), seed2, step)
    ensures var first := old(mem[..]);
            var second := Corrupted(first, seed1, step);
            crc == CrcOfCounts(FinalCounts(first, second), TrackCounts(first, second), 0, crc0)
  {
    hide Corrupted, CrcOfCounts, FinalCount, TrackCount, StateAt, Wrap;
    var finalCounts, trackCounts := new u32[8](_ => 0), new u32[8](_ => 0);
    ghost var first := mem[..];
    assert first[mem.Length - 1] == 0 && first[mem.Length - 2] == 0;
    Scan(mem, finalCounts, trackCounts);
    Corrupt(mem, seed1, step);
    ghost var second := mem[..];
    CorruptedTerminated(first, seed1, step);
    Scan(mem, finalCounts, trackCounts);
    Corrupt(mem, seed2, step);
    forall i | 0 <= i < 8
      ensures finalCounts[i] == FinalCounts(first, second)[i] && trackCounts[i] == TrackCounts(first, second)[i]
    {
      var k := StateAt(i);
      assert Index(k) == i;
      WrapSum(FinalCount(first, k), FinalCount(second, k));
      WrapSum(TrackCount(first, k), TrackCount(second, k));
    }
    assert finalCounts[..] == FinalCounts(first, second) && trackCounts[..] == TrackCounts(first, second);
    crc := CountsCrc(finalCounts, trackCounts, crc0);
  }

  method CountsCrc(finalCounts: array<u32>, trackCounts: array<u32>, crc0: bv16) returns (crc: bv16)
    requires finalCounts.Length == trackCounts.Length == 8
    ensures crc == CrcOfCounts(finalCounts[..], trackCounts[..], 0, crc0)
  {
    hide CrcOfLong;
    crc := crc0;
    for i := 0 to 8
      invariant CrcOfCounts(finalCounts[..], trackCounts[..], i, crc) ==
                CrcOfCounts(finalCounts[..], trackCounts[..], 0, crc0)
    {
      crc := Crcu32(finalCounts[i], crc);
      crc := Crcu32(trackCounts[i], crc);
    }
  }
}
