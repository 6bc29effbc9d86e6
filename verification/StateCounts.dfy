/** What the counters of core_state.c count, in terms of the tokens of a text and the grammar. */
module StateCounts {
  import opened StateMachine

  // ---------- in terms of the grammar ----------

  ghost predicate MeansNothing(w: seq<bv8>) { forall r :: !Denotes(w, r) }

  /** The symbol at i is read in state k and leads out of it; for Invalid, it is a first symbol or one after a
  scientific number, and makes the token stand for nothing. */
  ghost predicate MarkedAt(w: seq<bv8>, k: CoreState, i: nat)
    requires i < |w|
  {
    if k == Invalid then
      (Denotes(w[..i], Start) || Denotes(w[..i], Scientific)) && MeansNothing(w[..i + 1])
    else k != Scientific && Denotes(w[..i], k) && !Denotes(w[..i + 1], k)
  }

  ghost predicate Marked(token: seq<bv8>, k: CoreState) {
    exists i :: 0 <= i < |Symbols(token)| && MarkedAt(Symbols(token), k, i)
  }

  ghost predicate EndsIn(token: seq<bv8>, k: CoreState) {
    if k == Invalid then MeansNothing(Symbols(token)) else Denotes(Symbols(token), k)
  }

  /** The number of tokens with a symbol that leads out of k. */
  ghost function CountMarked(tokens: seq<seq<bv8>>, k: CoreState): nat {
    if tokens == [] then 0 else (if Marked(tokens[0], k) then 1 else 0) + CountMarked(tokens[1..], k)
  }

  /** The number of tokens that stand for k. */
  ghost function CountEnding(tokens: seq<seq<bv8>>, k: CoreState): nat {
    if tokens == [] then 0 else (if EndsIn(tokens[0], k) then 1 else 0) + CountEnding(tokens[1..], k)
  }

  /** Every token with a symbol leads out of the start state. */
  lemma StartIsMarked(token: seq<bv8>)
    ensures Marked(token, Start) <==> Symbols(token) != []
  {
    var w := Symbols(token);
    hide Symbols;
    if w != [] {
      assert MarkedAt(w, Start, 0);
    }
  }

  // ---------- in terms of the machine ----------

  predicate Mark(s: CoreState, next: CoreState, k: CoreState) {
    if k == Invalid then (s == Start || s == Scientific) && next == Invalid
    else k != Scientific && s == k && next != k
  }

  ghost predicate MarkedFrom(s: CoreState, w: seq<bv8>, k: CoreState)
    decreases |w|
  {
    w != [] && (Mark(s, Next(s, w[0]), k) || MarkedFrom(Next(s, w[0]), w[1..], k))
  }

  lemma TrackedIsMark(s: CoreState, c: bv8, k: CoreState)
    ensures Tracked(s, c, k) == if Mark(s, Next(s, c), k) then 1 else 0
  {
  }

  /** States are left for good. */
  function Rank(s: CoreState): nat {
    match s
    case Start => 0 case S1 => 1 case Int => 2 case Float => 3
    case S2 => 4 case Exponent => 5 case Scientific => 6 case Invalid => 7
  }

  lemma NextRank(s: CoreState, c: bv8)
    ensures Next(s, c) == s || Rank(s) < Rank(Next(s, c))
  {
  }

  lemma {:induction false} NoMarkBehind(s: CoreState, w: seq<bv8>, k: CoreState)
    requires Rank(k) < Rank(s) || s == Invalid
    ensures !MarkedFrom(s, w, k)
    decreases |w|
  {
    hide Next;
    if w != [] {
      InvalidStays(w[0]);
      NextRank(s, w[0]);
      NoMarkBehind(Next(s, w[0]), w[1..], k);
    }
  }

  lemma SliceSymbols(text: seq<bv8>, s: CoreState)
    requires text != [] && text[0] != 0 && text[0] != COMMA && s != Invalid
    ensures var rest, next := text[1..], Next(s, text[0]);
            Symbols(text[..TokenLength(text, s)]) == [text[0]] + Symbols(rest[..TokenLength(rest, next)])
  {
  }

  lemma FirstMark(s: CoreState, c: bv8, w: seq<bv8>, k: CoreState)
    ensures MarkedFrom(s, [c] + w, k) <==> Mark(s, Next(s, c), k) || MarkedFrom(Next(s, c), w, k)
    ensures Mark(s, Next(s, c), k) || Next(s, c) == Invalid ==> !MarkedFrom(Next(s, c), w, k)
  {
    assert ([c] + w)[1..] == w;
    NextRank(s, c);
    if Mark(s, Next(s, c), k) || Next(s, c) == Invalid {
      NoMarkBehind(Next(s, c), w, k);
    }
  }

  /** A token counts each state at most once, exactly if one of its symbols leads out of it. */
  lemma {:induction false} TokenTrackedIsMarked(text: seq<bv8>, s: CoreState, k: CoreState)
    requires s != Invalid
    ensures TokenTracked(text, s, k) == if MarkedFrom(s, Symbols(text[..TokenLength(text, s)]), k) then 1 else 0
    decreases |text|
  {
    hide *;
    NoSymbols(text, s, k);
    if text != [] && text[0] != 0 && text[0] != COMMA {
      var c, rest, next := text[0], text[1..], Next(s, text[0]);
      SliceSymbols(text, s);
      TrackedUnfold(text, s, k);
      TrackedIsMark(s, c, k);
      FirstMark(s, c, Symbols(rest[..TokenLength(rest, next)]), k);
      if next != Invalid {
        TokenTrackedIsMarked(rest, next, k);
      }
    }
  }

  lemma TrackedUnfold(text: seq<bv8>, s: CoreState, k: CoreState)
    requires text != [] && text[0] != 0 && text[0] != COMMA && s != Invalid
    ensures var next := Next(s, text[0]);
            TokenTracked(text, s, k) == Tracked(s, text[0], k) + TokenTracked(text[1..], next, k) &&
            (next == Invalid ==> TokenTracked(text[1..], next, k) == 0)
  {
    hide Next, Tracked;
  }

  lemma NoSymbols(text: seq<bv8>, s: CoreState, k: CoreState)
    requires s != Invalid
    ensures text == [] || text[0] == 0 || text[0] == COMMA ==>
              TokenTracked(text, s, k) == 0 && !MarkedFrom(s, Symbols(text[..TokenLength(text, s)]), k)
  {
  }

  /** Marks by the states that the machine reads up to and with a symbol. */
  ghost predicate MarkReadAt(s: CoreState, w: seq<bv8>, k: CoreState, i: nat)
    requires i < |w|
  {
    Mark(Reads(s, w[..i]), Reads(s, w[..i + 1]), k)
  }

  lemma MarkReadFirst(s: CoreState, w: seq<bv8>, k: CoreState, i: nat)
    requires i < |w|
    ensures MarkReadAt(s, w, k, i) <==>
            if i == 0 then Mark(s, Next(s, w[0]), k) else MarkReadAt(Next(s, w[0]), w[1..], k, i - 1)
  {
    hide Next, Mark;
    var next, rest := Next(s, w[0]), w[1..];
    if i > 0 {
      assert w[..i] == [w[0]] + rest[..i - 1];
      ReadsFirst(s, w[0], rest[..i - 1]);
    }
    assert w[..i + 1] == [w[0]] + rest[..i];
    ReadsFirst(s, w[0], rest[..i]);
  }

  lemma {:induction false} MarkedFromReads(s: CoreState, w: seq<bv8>, k: CoreState)
    ensures MarkedFrom(s, w, k) <==> exists i :: 0 <= i < |w| && MarkReadAt(s, w, k, i)
    decreases |w|
  {
    hide Next, Mark, MarkReadAt;
    if w != [] {
      var next, rest := Next(s, w[0]), w[1..];
      MarkReadFirst(s, w, k, 0);
      MarkedFromReads(next, rest, k);
      if i :| 0 <= i < |rest| && MarkReadAt(next, rest, k, i) {
        MarkReadFirst(s, w, k, i + 1);
      }
      if i :| 0 <= i < |w| && MarkReadAt(s, w, k, i) {
        MarkReadFirst(s, w, k, i);
      }
    }
  }

  lemma MarkIsMarkedAt(w: seq<bv8>, k: CoreState, i: nat)
    requires i < |w|
    ensures MarkReadAt(Start, w, k, i) <==> MarkedAt(w, k, i)
  {
    hide Denotes, Reads;
    StateMeaning(w[..i], Start);
    StateMeaning(w[..i], Scientific);
    StateMeaning(w[..i], k);
    StateMeaning(w[..i + 1], k);
  }

  lemma TokenTrackedCounts(text: seq<bv8>, k: CoreState)
    ensures TokenTracked(text, Start, k) == if Marked(text[..TokenLength(text, Start)], k) then 1 else 0
  {
    hide MarkReadAt, MarkedAt, MarkedFrom, TokenTracked;
    var w := Symbols(text[..TokenLength(text, Start)]);
    TokenTrackedIsMarked(text, Start, k);
    MarkedFromReads(Start, w, k);
    if MarkedFrom(Start, w, k) {
      var i :| 0 <= i < |w| && MarkReadAt(Start, w, k, i);
      MarkIsMarkedAt(w, k, i);
    }
    if i :| 0 <= i < |w| && MarkedAt(w, k, i) {
      MarkIsMarkedAt(w, k, i);
    }
  }

  /** A transition counter is the number of tokens with a symbol that leads out of its state; that of Invalid, of
  tokens that are invalid at their first symbol or become so out of a scientific number. */
  lemma {:induction false} TrackCountIsMarked(text: seq<bv8>, k: CoreState)
    ensures TrackCount(text, k) == CountMarked(Tokens(text), k)
    decreases |text|
  {
    hide TokenLength, TokenTracked, Marked;
    if text != [] && text[0] != 0 {
      var n := TokenLength(text, Start);
      TokenAdvances(text);
      TokenTrackedCounts(text, k);
      TrackCountIsMarked(text[n..], k);
      assert Tokens(text)[1..] == Tokens(text[n..]);
    }
  }

  /** A final counter is the number of tokens that stand for its state; that of Invalid, for nothing. */
  lemma {:induction false} FinalCountIsEnding(text: seq<bv8>, k: CoreState)
    ensures FinalCount(text, k) == CountEnding(Tokens(text), k)
    decreases |text|
  {
    hide TokenLength, TokenState, Denotes, Symbols;
    if text != [] && text[0] != 0 {
      var n := TokenLength(text, Start);
      TokenAdvances(text);
      TokenReads(text, Start);
      StateMeaning(Symbols(text[..n]), k);
      FinalCountIsEnding(text[n..], k);
      assert Tokens(text)[1..] == Tokens(text[n..]);
    }
  }
}
