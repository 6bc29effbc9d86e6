/** The scanner of core_state.c: what its tokens are and what they mean. */
module StateMachine {
  import opened Sequences

  const COMMA: bv8 := 0x2c

  datatype CoreState = Start | Invalid | S1 | S2 | Int | Float | Exponent | Scientific

  /** The value of the enumerator, which indexes the counters. */
  function Index(s: CoreState): (i: nat)
    ensures i < 8
  {
    match s
    case Start => 0
    case Invalid => 1
    case S1 => 2
    case S2 => 3
    case Int => 4
    case Float => 5
    case Exponent => 6
    case Scientific => 7
  }

  predicate IsDigit(c: bv8) { 0x30 <= c <= 0x39 }

  predicate IsSign(c: bv8) { c == 0x2b || c == 0x2d }

  predicate IsDot(c: bv8) { c == 0x2e }

  predicate IsE(c: bv8) { c == 0x45 || c == 0x65 }

  /** The classes of symbols, as they are spelled. */
  lemma SymbolClasses(c: bv8)
    ensures IsDigit(c) <==> '0' <= (c as char) <= '9'
    ensures IsSign(c) <==> (c as char) == '+' || (c as char) == '-'
    ensures IsDot(c) <==> (c as char) == '.'
    ensures IsE(c) <==> (c as char) == 'e' || (c as char) == 'E'
    ensures c == COMMA <==> (c as char) == ','
  {
  }

  /** One symbol of the machine. */
  function Next(s: CoreState, c: bv8): CoreState {
    match s
    case Start => if IsDigit(c) then Int else if IsSign(c) then S1 else if IsDot(c) then Float else Invalid
    case S1 => if IsDigit(c) then Int else if IsDot(c) then Float else Invalid
    case Int => if IsDot(c) then Float else if IsDigit(c) then Int else Invalid
    case Float => if IsE(c) then S2 else if IsDigit(c) then Float else Invalid
    case S2 => if IsSign(c) then Exponent else Invalid
    case Exponent => if IsDigit(c) then Scientific else Invalid
    case Scientific => if IsDigit(c) then Scientific else Invalid
    case Invalid => Invalid
  }

  /** How often counter k goes up when s reads c. Loops back to the same state are not counted,
  and an invalid first or exponent digit is booked on Invalid. */
  function Tracked(s: CoreState, c: bv8, k: CoreState): nat {
    match s
    case Start => (if k == Start then 1 else 0) + (if k == Invalid && Next(s, c) == Invalid then 1 else 0)
    case Scientific => if k == Invalid && Next(s, c) == Invalid then 1 else 0
    case Invalid => 0
    case _ => if k == s && Next(s, c) != s then 1 else 0
  }

  // ---------- a token ----------

  /** How many bytes a call consumes: up to the terminator, through the first comma, or
  through the byte that makes the token invalid. */
  function TokenLength(text: seq<bv8>, s: CoreState): (n: nat)
    ensures n <= |text|
  {
    if text == [] || text[0] == 0 || s == Invalid then 0
    else if text[0] == COMMA then 1
    else 1 + TokenLength(text[1..], Next(s, text[0]))
  }

  /** The state a call returns. */
  function TokenState(text: seq<bv8>, s: CoreState): CoreState {
    if text == [] || text[0] == 0 || s == Invalid || text[0] == COMMA then s
    else TokenState(text[1..], Next(s, text[0]))
  }

  function TokenTracked(text: seq<bv8>, s: CoreState, k: CoreState): nat {
    if text == [] || text[0] == 0 || s == Invalid || text[0] == COMMA then 0
    else Tracked(s, text[0], k) + TokenTracked(text[1..], Next(s, text[0]), k)
  }

  // ---------- the grammar ----------

  ghost predicate Digits(w: seq<bv8>) { forall i :: 0 <= i < |w| ==> IsDigit(w[i]) }

  function Unsigned(w: seq<bv8>): seq<bv8> { if w != [] && IsSign(w[0]) then w[1..] else w }

  function Last(w: seq<bv8>): bv8
    requires w != []
  {
    w[|w| - 1]
  }

  function Init(w: seq<bv8>): seq<bv8>
    requires w != []
  {
    w[..|w| - 1]
  }

  ghost predicate IsInt(w: seq<bv8>) { Unsigned(w) != [] && Digits(Unsigned(w)) }

  /** Digits, a dot, digits; either side may be empty. */
  ghost predicate DottedAt(u: seq<bv8>, k: int) { 0 <= k < |u| && IsDot(u[k]) && Digits(u[..k]) && Digits(u[k + 1..]) }

  ghost predicate IsFloat(w: seq<bv8>) { exists k :: DottedAt(Unsigned(w), k) }

  ghost predicate IsFloatE(w: seq<bv8>) { w != [] && IsE(Last(w)) && IsFloat(Init(w)) }

  ghost predicate IsFloatESign(w: seq<bv8>) { w != [] && IsSign(Last(w)) && IsFloatE(Init(w)) }

  ghost predicate ExponentAt(w: seq<bv8>, k: int) { 0 <= k < |w| && IsFloatESign(w[..k]) && Digits(w[k..]) }

  ghost predicate IsScientific(w: seq<bv8>) { exists k :: ExponentAt(w, k) }

  /** What each state but Invalid says about the symbols read. */
  ghost predicate Denotes(w: seq<bv8>, s: CoreState) {
    match s
    case Start => w == []
    case S1 => |w| == 1 && IsSign(w[0])
    case Int => IsInt(w)
    case Float => IsFloat(w)
    case S2 => IsFloatE(w)
    case Exponent => IsFloatESign(w)
    case Scientific => IsScientific(w)
    case Invalid => false
  }

  function Reads(s: CoreState, w: seq<bv8>): CoreState {
    if w == [] then s else Next(Reads(s, Init(w)), Last(w))
  }

  lemma ClassesDisjoint(c: bv8)
    ensures !(IsDigit(c) && IsSign(c)) && !(IsDigit(c) && IsDot(c)) && !(IsDigit(c) && IsE(c))
    ensures !(IsSign(c) && IsDot(c)) && !(IsSign(c) && IsE(c)) && !(IsDot(c) && IsE(c))
    ensures IsDigit(c) || IsSign(c) || IsDot(c) || IsE(c) ==> c != 0 && c != COMMA
  {
  }

  lemma UnsignedAppend(u: seq<bv8>, c: bv8)
    ensures u != [] ==> Unsigned(u + [c]) == Unsigned(u) + [c]
    ensures !IsSign(c) ==> Unsigned([c]) == [c]
    ensures Init(u + [c]) == u && Last(u + [c]) == c && Unsigned([]) == []
  {
  }

  lemma DigitsAppend(u: seq<bv8>, c: bv8)
    ensures Digits(u + [c]) <==> Digits(u) && IsDigit(c)
  {
    hide IsDigit;
    assert forall i :: 0 <= i < |u| ==> (u + [c])[i] == u[i];
    assert (u + [c])[|u|] == c;
  }

  /** Reading one more symbol keeps the meaning. */
  lemma MeaningGrows(u: seq<bv8>, c: bv8, r: CoreState)
    requires Denotes(u, r) && Next(r, c) != Invalid
    ensures Denotes(u + [c], Next(r, c))
  {
    hide IsDigit, IsSign, IsDot, IsE, Unsigned, Digits, Init, Last;
    ClassesDisjoint(c);
    UnsignedAppend(u, c);
    DigitsAppend(Unsigned(u), c);
    assert Digits([]) by { EmptyDigits(); }
    var w := u + [c];
    match r
    case Start =>
      assert w == [c];
      SingleSymbol(c);
    case S1 =>
      assert Unsigned(u) == [] by { SignOnly(u); }
      assert Unsigned(w) == [c];
      SingleDigits(c);
      if IsDot(c) { DotAfterDigits([], c); }
    case Int =>
      if IsDot(c) { DotAfterDigits(Unsigned(u), c); }
    case Float =>
      if IsDigit(c) {
        var k :| DottedAt(Unsigned(u), k);
        DottedAppend(Unsigned(u), c, k);
      }
    case S2 =>
    case Exponent =>
      assert w[..|u|] == u && w[|u|..] == [c];
      SingleDigits(c);
      assert ExponentAt(w, |u|);
    case Scientific =>
      var k :| ExponentAt(u, k);
      assert w[..k] == u[..k] && w[k..] == u[k..] + [c];
      DigitsAppend(u[k..], c);
      assert ExponentAt(w, k);
  }

  lemma DotAfterDigits(u: seq<bv8>, c: bv8)
    requires Digits(u) && IsDot(c)
    ensures DottedAt(u + [c], |u|) && [] + [c] == [c]
  {
  }

  lemma EmptyDigits()
    ensures Digits([])
  {
  }

  lemma SingleDigits(c: bv8)
    ensures Digits([c]) <==> IsDigit(c)
  {
    assert [c][0] == c;
  }

  lemma SignOnly(u: seq<bv8>)
    requires |u| == 1 && IsSign(u[0])
    ensures Unsigned(u) == []
  {
  }

  lemma SingleSymbol(c: bv8)
    ensures IsDigit(c) ==> IsInt([c])
    ensures IsDot(c) ==> IsFloat([c])
  {
    ClassesDisjoint(c);
    if IsDot(c) {
      assert DottedAt(Unsigned([c]), 0);
    }
  }

  lemma DottedAppend(u: seq<bv8>, c: bv8, k: int)
    requires DottedAt(u, k) && IsDigit(c)
    ensures DottedAt(u + [c], k)
  {
  }

  /** The symbols before the last have a meaning, too, and it leads to this one. */
  lemma MeaningShrinks(w: seq<bv8>, s: CoreState) returns (r: CoreState)
    requires Denotes(w, s) && w != []
    ensures Denotes(Init(w), r) && Next(r, Last(w)) == s
  {
    hide IsDigit, IsSign, IsDot, IsE, Unsigned, Digits, IsFloat, IsInt, IsScientific;
    var u, c := Init(w), Last(w);
    assert w == u + [c];
    ClassesDisjoint(c);
    match s
    case S1 =>
      r := Start;
    case Int =>
      r := IntShrinks(u, c);
    case Float =>
      r := FloatShrinks(u, c);
    case S2 =>
      r := Float;
    case Exponent =>
      r := S2;
    case Scientific =>
      r := ScientificShrinks(u, c);
  }

  lemma ScientificShrinks(u: seq<bv8>, c: bv8) returns (r: CoreState)
    requires IsScientific(u + [c])
    ensures Denotes(u, r) && Next(r, c) == Scientific
  {
    hide IsDigit, IsSign, IsDot, IsE, Unsigned, Digits, IsFloatESign;
    var w := u + [c];
    var k :| ExponentAt(w, k);
    assert w[k..] == u[k..] + [c] && u[..k] == w[..k];
    DigitsAppend(u[k..], c);
    if k == |u| {
      assert u[..k] == u;
      r := Exponent;
    } else {
      r := Scientific;
      assert ExponentAt(u, k);
    }
  }

  lemma IntShrinks(u: seq<bv8>, c: bv8) returns (r: CoreState)
    requires IsInt(u + [c])
    ensures Denotes(u, r) && Next(r, c) == Int
  {
    hide IsDigit, IsSign, IsDot, Digits, IsE;
    ClassesDisjoint(c);
    if u == [] {
      r := Start;
      assert u + [c] == [c];
      SingleDigits(c);
      NoSignFirst(c);
    } else {
      UnsignedAppend(u, c);
      DigitsAppend(Unsigned(u), c);
      r := if Unsigned(u) == [] then S1 else Int;
    }
  }

  lemma NoSignFirst(c: bv8)
    requires IsInt([c])
    ensures IsDigit(c)
  {
  }

  lemma SplitAppend<T>(u: seq<T>, c: T, k: int)
    requires 0 <= k < |u|
    ensures (u + [c])[..k] == u[..k] && (u + [c])[k + 1..] == u[k + 1..] + [c]
  {
  }

  lemma FloatShrinks(u: seq<bv8>, c: bv8) returns (r: CoreState)
    requires IsFloat(u + [c])
    ensures Denotes(u, r) && Next(r, c) == Float
  {
    hide IsDigit, IsDot, IsE, Digits;
    var k :| DottedAt(Unsigned(u + [c]), k);
    ClassesDisjoint(c);
    UnsignedAppend(u, c);
    var v := Unsigned(u + [c]);
    assert u == [] ==> u + [c] == [c];
    assert v == Unsigned(u) + [c];
    hide Unsigned;
    if k == |v| - 1 {
      assert v[..k] == Unsigned(u);
      r := if u == [] then Start else if Unsigned(u) == [] then S1 else Int;
    } else {
      SplitAppend(Unsigned(u), c, k);
      DigitsAppend(Unsigned(u)[k + 1..], c);
      assert DottedAt(Unsigned(u), k);
      r := Float;
    }
  }

  /** The machine decides the grammar: it is in a state exactly when the symbols read are what
  that state stands for, and in Invalid exactly when they stand for nothing. */
  lemma {:induction false} StateMeaning(w: seq<bv8>, s: CoreState)
    ensures s != Invalid ==> (Reads(Start, w) == s <==> Denotes(w, s))
    ensures Reads(Start, w) == Invalid <==> forall r :: !Denotes(w, r)
    decreases |w|
  {
    hide IsInt, IsFloat, IsFloatE, IsFloatESign, IsScientific, Next;
    if w == [] {
      forall r {
        EmptyMeaning(r);
      }
      assert Denotes(w, Start);
    } else {
      var u, c := Init(w), Last(w);
      assert w == u + [c];
      forall r {
        StateMeaning(u, r);
      }
      var q := Reads(Start, u);
      InvalidStays(c);
      if Next(q, c) != Invalid {
        MeaningGrows(u, c, q);
      }
      forall r | Denotes(w, r)
        ensures Reads(Start, w) == r
      {
        var before := MeaningShrinks(w, r);
        StateMeaning(u, before);
      }
    }
  }

  lemma InvalidStays(c: bv8)
    ensures Next(Invalid, c) == Invalid
  {
  }

  lemma EmptyMeaning(s: CoreState)
    ensures Denotes([], s) <==> s == Start
  {
  }

  // ---------- tokens of a text ----------

  /** What a token's bytes say: all of them but a closing comma. */
  function Symbols(slice: seq<bv8>): seq<bv8> {
    if slice != [] && Last(slice) == COMMA then Init(slice) else slice
  }

  lemma {:induction false} ReadsFirst(s: CoreState, c: bv8, w: seq<bv8>)
    ensures Reads(s, [c] + w) == Reads(Next(s, c), w)
    decreases |w|
  {
    hide Next;
    if w == [] {
      assert [c] + w == [c] && Init([c]) == [];
    } else {
      assert Init([c] + w) == [c] + Init(w) && Last([c] + w) == Last(w);
      ReadsFirst(s, c, Init(w));
    }
  }

  /** A call reads exactly the symbols of what it consumes, stops before the terminator, and
  stops for one of three reasons: terminator, comma, or an invalid symbol just read. */
  lemma {:induction false} TokenReads(text: seq<bv8>, s: CoreState)
    requires s != Invalid
    ensures var n, state := TokenLength(text, s), TokenState(text, s);
      var w := Symbols(text[..n]);
      && state == Reads(s, w)
      && (forall i :: 0 <= i < |w| ==> w[i] != 0 && w[i] != COMMA)
      && (n == |text| || text[n] == 0 || |w| < n || state == Invalid)
      && (state == Invalid ==> w != [] && |w| == n && Reads(s, Init(w)) != Invalid)
      && (state != Invalid && |w| < n ==> text[n - 1] == COMMA)
    decreases |text|
  {
    hide Next;
    var n, state := TokenLength(text, s), TokenState(text, s);
    if text != [] && text[0] != 0 && text[0] != COMMA {
      var rest, next := text[1..], Next(s, text[0]);
      var m := TokenLength(rest, next);
      assert text[..n] == [text[0]] + rest[..m];
      if next == Invalid {
        assert text[..n] == [text[0]];
        assert Symbols([text[0]]) == [text[0]] && Init([text[0]]) == [];
        assert Reads(s, [text[0]]) == Next(Reads(s, []), text[0]);
      } else {
        TokenReads(rest, next);
        SymbolsFirst(text[0], rest[..m]);
        var w := Symbols(rest[..m]);
        ReadsFirst(s, text[0], w);
        if state == Invalid {
          assert Init([text[0]] + w) == [text[0]] + Init(w);
          ReadsFirst(s, text[0], Init(w));
        }
      }
    } else {
      assert text[..n] == if text != [] && text[0] == COMMA then [COMMA] else [];
      assert Symbols([COMMA]) == [];
    }
  }

  lemma SymbolsFirst(c: bv8, slice: seq<bv8>)
    requires c != COMMA
    ensures Symbols([c] + slice) == [c] + Symbols(slice)
  {
  }

  /** The state returned is what the grammar assigns to the bytes consumed; Invalid means that
  they stand for nothing although all but the last still did. */
  lemma TokenIsGrammatical(text: seq<bv8>)
    ensures var w, state := Symbols(text[..TokenLength(text, Start)]), TokenState(text, Start);
      && (state != Invalid ==> Denotes(w, state))
      && (state == Invalid ==> w != [] && (forall r :: !Denotes(w, r)) && exists r :: Denotes(Init(w), r))
  {
    hide Denotes;
    TokenReads(text, Start);
    var w, state := Symbols(text[..TokenLength(text, Start)]), TokenState(text, Start);
    StateMeaning(w, state);
    if state == Invalid {
      StateMeaning(Init(w), Reads(Start, Init(w)));
    }
  }

  lemma TokenAdvances(text: seq<bv8>)
    requires text != [] && text[0] != 0
    ensures TokenLength(text, Start) > 0
  {
  }

  function Tokens(text: seq<bv8>): (tokens: seq<seq<bv8>>)
    decreases |text|
  {
    if text == [] || text[0] == 0 then []
    else
      var n := TokenLength(text, Start);
      TokenAdvances(text);
      [text[..n]] + Tokens(text[n..])
  }

  function FirstNul(text: seq<bv8>): (k: nat)
    ensures k <= |text| && (k < |text| ==> text[k] == 0) && forall i :: 0 <= i < k ==> text[i] != 0
  {
    if text == [] || text[0] == 0 then 0 else 1 + FirstNul(text[1..])
  }

  /** The tokens are non-empty and make up the text before its terminator. */
  lemma {:induction false} TokensPartition(text: seq<bv8>)
    ensures Flatten(Tokens(text)) == text[..FirstNul(text)]
    ensures forall t :: t in Tokens(text) ==> t != []
    decreases |text|
  {
    if text != [] && text[0] != 0 {
      var n := TokenLength(text, Start);
      TokenAdvances(text);
      TokensPartition(text[n..]);
      TokenBeforeNul(text, Start);
      assert text[..n] + text[n..][..FirstNul(text) - n] == text[..FirstNul(text)];
    }
  }

  lemma {:induction false} TokenBeforeNul(text: seq<bv8>, s: CoreState)
    ensures TokenLength(text, s) <= FirstNul(text)
    ensures FirstNul(text[TokenLength(text, s)..]) == FirstNul(text) - TokenLength(text, s)
    decreases |text|
  {
    hide Next;
    if text != [] && text[0] != 0 && s != Invalid {
      if text[0] != COMMA {
        TokenBeforeNul(text[1..], Next(s, text[0]));
        assert text[TokenLength(text, s)..] == text[1..][TokenLength(text[1..], Next(s, text[0]))..];
      }
    }
  }

  /** How many tokens end in state k, and how often a scan counts k up. */
  function FinalCount(text: seq<bv8>, k: CoreState): nat
    decreases |text|
  {
    if text == [] || text[0] == 0 then 0
    else
      TokenAdvances(text);
      (if TokenState(text, Start) == k then 1 else 0) + FinalCount(text[TokenLength(text, Start)..], k)
  }

  function TrackCount(text: seq<bv8>, k: CoreState): nat
    decreases |text|
  {
    if text == [] || text[0] == 0 then 0
    else
      TokenAdvances(text);
      TokenTracked(text, Start, k) + TrackCount(text[TokenLength(text, Start)..], k)
  }

  /** Every token is counted once. */
  lemma {:induction false} FinalCountsSum(text: seq<bv8>)
    ensures FinalCount(text, Start) + FinalCount(text, Invalid) + FinalCount(text, S1) + FinalCount(text, S2) +
            FinalCount(text, Int) + FinalCount(text, Float) + FinalCount(text, Exponent) + FinalCount(text, Scientific)
            == |Tokens(text)|
    decreases |text|
  {
    hide TokenState, TokenLength, Next;
    if text != [] && text[0] != 0 {
      TokenAdvances(text);
      FinalCountsSum(text[TokenLength(text, Start)..]);
    }
  }

  lemma {:induction false} InvalidReads(w: seq<bv8>)
    ensures Reads(Invalid, w) == Invalid
    decreases |w|
  {
    if w != [] {
      InvalidReads(Init(w));
    }
  }

  /** Symbols that stand for something, with a comma behind them, are one token. */
  lemma {:induction false} WholeToken(s: CoreState, w: seq<bv8>, rest: seq<bv8>)
    requires Reads(s, w) != Invalid && forall i :: 0 <= i < |w| ==> w[i] != 0 && w[i] != COMMA
    ensures TokenLength(w + [COMMA] + rest, s) == |w| + 1
    ensures TokenState(w + [COMMA] + rest, s) == Reads(s, w)
    decreases |w|
  {
    hide Next;
    var text := w + [COMMA] + rest;
    if w == [] {
      assert text[0] == COMMA;
    } else {
      assert w == [w[0]] + w[1..];
      ReadsFirst(s, w[0], w[1..]);
      InvalidReads(w[1..]);
      InvalidStays(w[0]);
      WholeToken(Next(s, w[0]), w[1..], rest);
      assert text[1..] == w[1..] + [COMMA] + rest;
    }
  }
}
