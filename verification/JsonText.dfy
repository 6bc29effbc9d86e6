/** Braces and keys of raw JSON text: the string-aware brace matcher and the key in front of an object. */
module JsonText {
  import opened Ascii

  // ---------- strings ----------

  /** Where a reader of the text is: outside strings, in one, or in one behind a backslash. */
  datatype Place = Outside | Inside | Escaped

  function NextPlace(place: Place, c: char): Place {
    match place
    case Outside => if c == '"' then Inside else Outside
    case Inside => if c == '\\' then Escaped else if c == '"' then Outside else Inside
    case Escaped => Inside
  }

  /** The place in front of position i. */
  function PlaceAt(text: string, i: nat): Place
    requires i <= |text|
  {
    if i == 0 then Outside else NextPlace(PlaceAt(text, i - 1), text[i - 1])
  }

  predicate Opens(text: string, i: nat)
    requires i < |text|
  {
    PlaceAt(text, i) == Outside && text[i] == '{'
  }

  predicate Closes(text: string, i: nat)
    requires i < |text|
  {
    PlaceAt(text, i) == Outside && text[i] == '}'
  }

  // ---------- matching braces ----------

  /** Opening minus closing braces outside strings, from position a up to b. */
  function Depth(text: string, a: nat, b: nat): int
    requires a <= b <= |text|
    decreases b
  {
    if a == b then 0
    else Depth(text, a, b - 1) + if Opens(text, b - 1) then 1 else if Closes(text, b - 1) then -1 else 0
  }

  /** The object opened at s has not been closed in front of i. */
  ghost predicate Open(text: string, s: nat, i: nat)
    requires i <= |text|
  {
    s < i && Opens(text, s) && forall m {:trigger Depth(text, s + 1, m)} :: s < m <= i ==> Depth(text, s + 1, m) >= 0
  }

  /** The braces at s and e belong together. */
  ghost predicate Match(text: string, s: nat, e: nat) {
    s < e < |text| && Open(text, s, e) && Closes(text, e) && Depth(text, s + 1, e) == 0
  }

  lemma {:induction false} DepthSum(text: string, a: nat, b: nat, c: nat)
    requires a <= b <= c <= |text|
    ensures Depth(text, a, c) == Depth(text, a, b) + Depth(text, b, c)
    decreases c
  {
    if b < c {
      DepthSum(text, a, b, c - 1);
    }
  }

  /** Objects are nested or apart, and no brace belongs to two of them. */
  lemma ObjectsNest(text: string, s: nat, e: nat, s': nat, e': nat)
    requires Match(text, s, e) && Match(text, s', e') && s <= s'
    ensures (s == s' && e == e') || e < s' || (s < s' && e' < e)
  {
    hide Opens, Closes, Depth;
    if s == s' {
      Unclosed(text, s, e, e');
      Unclosed(text, s, e', e);
    } else if s' < e <= e' {
      DepthSum(text, s + 1, s', s' + 1);
      DepthSum(text, s + 1, s' + 1, e);
      assert Depth(text, s + 1, s') >= 0 && Depth(text, s' + 1, e) >= 0;
      DepthOfOpening(text, s');
      assert false;
    } else if e == s' {
      OpeningIsNotClosing(text, e);
    }
  }

  lemma OpeningIsNotClosing(text: string, i: nat)
    requires i < |text|
    ensures !Opens(text, i) || !Closes(text, i)
  {
  }

  lemma DepthOfOpening(text: string, i: nat)
    requires i < |text| && Opens(text, i)
    ensures Depth(text, i, i + 1) == 1
  {
  }

  lemma Unclosed(text: string, s: nat, e: nat, e': nat)
    requires Match(text, s, e) && Match(text, s, e')
    ensures e' <= e
  {
    assert Depth(text, s + 1, e + 1) == -1;
  }

  /** Exactly the openings that are open, outermost first. */
  ghost predicate IsStack(text: string, stack: seq<nat>, i: nat)
    requires i <= |text|
  {
    (forall k :: 0 <= k < |stack| ==> Open(text, stack[k], i) && Depth(text, stack[k] + 1, i) == |stack| - 1 - k) &&
    forall s: nat :: Open(text, s, i) ==> s in stack
  }

  lemma OpenLater(text: string, s: nat, i: nat)
    requires i < |text|
    ensures Open(text, s, i + 1) <==>
            (Open(text, s, i) && Depth(text, s + 1, i + 1) >= 0) || (s == i && Opens(text, i))
  {
  }

  lemma StackPushed(text: string, stack: seq<nat>, i: nat)
    requires i < |text| && IsStack(text, stack, i) && Opens(text, i)
    ensures IsStack(text, stack + [i], i + 1)
  {
  }

  lemma StackPopped(text: string, stack: seq<nat>, i: nat)
    requires i < |text| && IsStack(text, stack, i) && Closes(text, i) && stack != []
    ensures IsStack(text, stack[..|stack| - 1], i + 1)
    ensures forall s: nat :: Match(text, s, i) <==> s == stack[|stack| - 1]
  {
    var n := |stack| - 1;
    forall s: nat ensures Open(text, s, i + 1) ==> s in stack[..n] {
      OpenLater(text, s, i);
      if Open(text, s, i + 1) {
        var k :| 0 <= k < |stack| && stack[k] == s;
        assert stack[..n][k] == s;
      }
    }
    forall k | 0 <= k < n {
      OpenLater(text, stack[k], i);
    }
  }

  lemma StackKept(text: string, stack: seq<nat>, i: nat)
    requires i < |text| && IsStack(text, stack, i) && !Opens(text, i) && (Closes(text, i) ==> stack == [])
    ensures IsStack(text, stack, i + 1)
    ensures forall s: nat :: !Match(text, s, i)
  {
  }

  /** Exactly the pairs of braces that belong together. */
  method ObjectSpans(text: string) returns (spans: seq<(nat, nat)>)
    ensures forall s: nat, e: nat :: (s, e) in spans <==> Match(text, s, e)
  {
    hide IsStack, Match, Opens, Closes;
    spans := [];
    var stack: seq<nat> := [];
    var inString, escaped := false, false;
    assert IsStack(text, [], 0) by {
      EmptyStack(text);
    }
    for index := 0 to |text|
      invariant inString == (PlaceAt(text, index) != Outside) && escaped == (PlaceAt(text, index) == Escaped)
      invariant IsStack(text, stack, index)
      invariant forall s: nat, e: nat :: (s, e) in spans <==> e < index && Match(text, s, e)
    {
      var c := text[index];
      BraceAt(text, index);
      if inString {
        StackKept(text, stack, index);
        if escaped {
          escaped := false;
        } else if c == '\\' {
          escaped := true;
        } else if c == '"' {
          inString := false;
        }
      } else if c == '"' {
        StackKept(text, stack, index);
        inString := true;
      } else if c == '{' {
        StackPushed(text, stack, index);
        OpeningMatchesNothing(text, index);
        stack := stack + [index];
      } else if c == '}' && stack != [] {
        StackPopped(text, stack, index);
        spans := spans + [(stack[|stack| - 1], index)];
        stack := stack[..|stack| - 1];
      } else {
        StackKept(text, stack, index);
      }
    }
    forall s: nat, e: nat | Match(text, s, e) ensures e < |text| {
      MatchIsInText(text, s, e);
    }
  }

  lemma EmptyStack(text: string)
    ensures IsStack(text, [], 0)
  {
  }

  lemma BraceAt(text: string, i: nat)
    requires i < |text|
    ensures Opens(text, i) <==> PlaceAt(text, i) == Outside && text[i] == '{'
    ensures Closes(text, i) <==> PlaceAt(text, i) == Outside && text[i] == '}'
  {
  }

  lemma OpeningMatchesNothing(text: string, i: nat)
    requires i < |text| && Opens(text, i)
    ensures forall s: nat :: !Match(text, s, i)
  {
  }

  lemma MatchIsInText(text: string, s: nat, e: nat)
    requires Match(text, s, e)
    ensures s < e < |text|
  {
  }

  // ---------- the key in front of an object ----------

  function SkipSpace(s: string, i: nat): (j: nat)
    requires i <= |s|
    ensures i <= j <= |s| && (forall k :: i <= k < j ==> IsSpace(s[k])) && (j < |s| ==> !IsSpace(s[j]))
    decreases |s| - i
  {
    if i < |s| && IsSpace(s[i]) then SkipSpace(s, i + 1) else i
  }

  /** The rest of the text is a colon, with white space around it. */
  predicate IsColon(s: string, i: nat)
    requires i <= |s|
  {
    var j := SkipSpace(s, i);
    j < |s| && s[j] == ':' && SkipSpace(s, j + 1) == |s|
  }

  /** The colon has white space in front of it and behind it. */
  ghost predicate ColonAt(s: string, i: nat, c: nat) {
    i <= c < |s| && s[c] == ':' && AllSpace(s[i..c]) && AllSpace(s[c + 1..])
  }

  lemma IsColonIs(s: string, i: nat)
    requires i <= |s|
    ensures IsColon(s, i) <==> exists c: nat :: ColonAt(s, i, c)
  {
    var j := SkipSpace(s, i);
    hide SkipSpace;
    if IsColon(s, i) {
      assert ColonAt(s, i, j);
    }
    if c: nat :| ColonAt(s, i, c) {
      assert !IsSpace(':');
      assert forall k :: i <= k < c ==> s[k] == s[i..c][k - i];
      assert j == c;
      var e := SkipSpace(s, c + 1);
      assert e < |s| ==> s[e] == s[c + 1..][e - c - 1];
    }
  }

  /** The next quote that no backslash escapes; a backslash does not escape a line feed. */
  function BodyEnd(s: string, i: nat): (r: Option<nat>)
    requires i <= |s|
    ensures r.Some? ==> i <= r.value < |s| && s[r.value] == '"'
    decreases |s| - i
  {
    if i == |s| then None
    else if s[i] == '"' then Some(i)
    else if s[i] != '\\' then BodyEnd(s, i + 1)
    else if i + 1 < |s| && s[i + 1] != '\n' then BodyEnd(s, i + 2)
    else None
  }

  /** A quoted string from q on, a colon, and the end of the text. */
  predicate KeyAt(s: string, q: nat) {
    q < |s| && s[q] == '"' && BodyEnd(s, q + 1).Some? && IsColon(s, BodyEnd(s, q + 1).value + 1)
  }

  /** The first match of the expression for a key, from q on. */
  function KeyFrom(s: string, q: nat): (r: Option<nat>)
    requires q <= |s|
    ensures r.Some? ==> q <= r.value && KeyAt(s, r.value)
    ensures forall k :: q <= k < |s| && KeyAt(s, k) ==> r.Some? && r.value <= k
    decreases |s| - q
  {
    if q == |s| then None else if KeyAt(s, q) then Some(q) else KeyFrom(s, q + 1)
  }

  /** The key that the object at start is bound to, as it is spelled. */
  function KeyNaming(text: string, start: nat): Option<string>
    requires start <= |text|
  {
    var s := text[..start];
    match KeyFrom(s, 0)
    case None => None
    case Some(q) => Some(s[q + 1..BodyEnd(s, q + 1).value])
  }

  /** What the grammar of JSON makes sure of: backslashes stand in strings, and none in front of a line feed. */
  predicate TameBackslashes(s: string) {
    forall i :: 0 <= i < |s| && s[i] == '\\' ==> PlaceAt(s, i) != Outside && (i + 1 < |s| ==> s[i + 1] != '\n')
  }

  /** A string of the text: from its opening quote at q to its closing quote at r. */
  ghost predicate IsString(s: string, q: nat, r: nat) {
    q < r < |s| && s[q] == s[r] == '"' && PlaceAt(s, q) == Outside && PlaceAt(s, r) == Inside &&
    forall k :: q < k <= r ==> PlaceAt(s, k) != Outside
  }

  /** Started outside strings, the search for a quote ends at an opening one. */
  lemma {:induction false} BodyEndOutside(s: string, i: nat)
    requires i <= |s| && PlaceAt(s, i) == Outside && TameBackslashes(s)
    ensures BodyEnd(s, i).Some? ==> PlaceAt(s, BodyEnd(s, i).value) == Outside
    decreases |s| - i
  {
    if i < |s| && s[i] != '"' {
      BodyEndOutside(s, i + 1);
    }
  }

  /** Started inside a string, it ends at the quote that closes this string. */
  lemma {:induction false} BodyEndInside(s: string, i: nat)
    requires i <= |s| && PlaceAt(s, i) == Inside
    ensures BodyEnd(s, i).Some? ==> PlaceAt(s, BodyEnd(s, i).value) == Inside &&
                                    forall k :: i <= k <= BodyEnd(s, i).value ==> PlaceAt(s, k) != Outside
    decreases |s| - i
  {
    if i < |s| && s[i] != '"' {
      if s[i] != '\\' {
        BodyEndInside(s, i + 1);
      } else if i + 1 < |s| && s[i + 1] != '\n' {
        assert PlaceAt(s, i + 1) == Escaped;
        BodyEndInside(s, i + 2);
      }
    }
  }

  /** Within one string it does not matter where the search starts. */
  lemma {:induction false} BodyEndLater(s: string, i: nat, j: nat)
    requires i <= j <= |s| && PlaceAt(s, i) == PlaceAt(s, j) == Inside && TameBackslashes(s)
    requires forall k :: i <= k <= j ==> PlaceAt(s, k) != Outside
    ensures BodyEnd(s, i) == BodyEnd(s, j)
    decreases j - i
  {
    if i < j {
      assert PlaceAt(s, i + 1) != Outside;
      if s[i] != '\\' {
        BodyEndLater(s, i + 1, j);
      } else {
        assert PlaceAt(s, i + 1) == Escaped;
        BodyEndLater(s, i + 2, j);
      }
    }
  }

  /** No quote, no change of place. */
  lemma {:induction false} StaysInside(s: string, i: nat, j: nat)
    requires i <= j <= |s| && PlaceAt(s, i) == Inside && forall k :: i <= k < j ==> s[k] != '"' && s[k] != '\\'
    ensures PlaceAt(s, j) == Inside
    decreases j
  {
    if i < j {
      StaysInside(s, i, j - 1);
    }
  }

  lemma ColonHasNoQuotes(s: string, i: nat)
    requires i <= |s| && IsColon(s, i)
    ensures forall k :: i <= k < |s| ==> s[k] != '"' && s[k] != '\\'
  {
  }

  /** The opening quote of the string that position i is in. */
  lemma {:induction false} OpeningQuote(s: string, i: nat) returns (q: nat)
    requires i <= |s| && PlaceAt(s, i) != Outside
    ensures q < i && s[q] == '"' && PlaceAt(s, q) == Outside && PlaceAt(s, q + 1) == Inside
    ensures forall k :: q < k <= i ==> PlaceAt(s, k) != Outside
    decreases i
  {
    if PlaceAt(s, i - 1) == Outside {
      q := i - 1;
    } else {
      q := OpeningQuote(s, i - 1);
    }
  }

  /** A match at an escaped quote is the rest of a longer match. */
  lemma EarlierKey(s: string, q: nat) returns (q0: nat)
    requires TameBackslashes(s) && KeyAt(s, q) && PlaceAt(s, q) == Escaped
    ensures q0 < q && KeyAt(s, q0)
  {
    q0 := OpeningQuote(s, q);
    BodyEndLater(s, q0 + 1, q + 1);
  }

  /** In front of a place outside strings the expression finds a whole string of the text, not a piece of one. */
  lemma KeyIsString(s: string)
    requires TameBackslashes(s) && PlaceAt(s, |s|) == Outside && KeyFrom(s, 0).Some?
    ensures var q := KeyFrom(s, 0).value; IsString(s, q, BodyEnd(s, q + 1).value)
  {
    hide KeyFrom, BodyEnd, IsColon, TameBackslashes;
    var q := KeyFrom(s, 0).value;
    var r := BodyEnd(s, q + 1).value;
    ColonHasNoQuotes(s, r + 1);
    if PlaceAt(s, r) == Outside {
      StaysInside(s, r + 1, |s|);
      assert false;
    }
    if PlaceAt(s, q) == Inside {
      BodyEndOutside(s, q + 1);
      assert false;
    }
    BodyEndInside(s, q + 1);
    if PlaceAt(s, q) == Escaped {
      var q0 := EarlierKey(s, q);
      assert false;
    }
  }

  /** And the string in front of a colon is what it finds. */
  lemma StringIsKey(s: string, q: nat, r: nat)
    requires TameBackslashes(s) && PlaceAt(s, |s|) == Outside && IsString(s, q, r) && IsColon(s, r + 1)
    ensures KeyFrom(s, 0) == Some(q) && BodyEnd(s, q + 1) == Some(r)
  {
    hide KeyFrom, IsColon, TameBackslashes;
    BodyEndLater(s, q + 1, r);
    assert KeyAt(s, q);
    KeyIsString(s);
    var p := KeyFrom(s, 0).value;
    ColonHasNoQuotes(s, BodyEnd(s, p + 1).value + 1);
    ColonHasNoQuotes(s, r + 1);
  }

  lemma {:induction false} PlaceInPrefix(text: string, n: nat, i: nat)
    requires i <= n <= |text|
    ensures PlaceAt(text[..n], i) == PlaceAt(text, i)
  {
    if i > 0 {
      PlaceInPrefix(text, n, i - 1);
    }
  }

  /** The string q..r of the text stands in front of position n, and only a colon stands between them. */
  ghost predicate Binds(text: string, n: nat, q: nat, r: nat)
    requires n <= |text|
  {
    IsString(text, q, r) && r < n && IsColon(text[..n], r + 1)
  }

  /** An object has a key exactly if a string and a colon stand in front of it, and this string is the key. */
  lemma KeyNamesObject(text: string, s: nat, e: nat)
    requires Match(text, s, e) && TameBackslashes(text)
    ensures match KeyNaming(text, s)
            case None => forall q: nat, r: nat :: !Binds(text, s, q, r)
            case Some(key) => exists q: nat, r: nat :: Binds(text, s, q, r) && key == text[q + 1..r]
  {
    hide BodyEnd, IsColon, KeyFrom;
    var p := text[..s];
    forall i: nat | i <= s {
      PlaceInPrefix(text, s, i);
    }
    assert Opens(text, s);
    assert TameBackslashes(p);
    if KeyFrom(p, 0).Some? {
      KeyIsString(p);
      var q := KeyFrom(p, 0).value;
      var r := BodyEnd(p, q + 1).value;
      assert Binds(text, s, q, r);
      assert p[q + 1..r] == text[q + 1..r];
    } else {
      forall q: nat, r: nat ensures !Binds(text, s, q, r) {
        if Binds(text, s, q, r) {
          StringIsKey(p, q, r);
          assert false;
        }
      }
    }
  }
}
