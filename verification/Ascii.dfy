/** Text operations of the evidence tools, for ASCII. */
module Ascii {

  datatype Option<T> = None | Some(value: T)

  function LowerChar(c: char): char { if 'A' <= c <= 'Z' then c - 'A' + 'a' else c }

  /** Lower case, for ASCII. */
  function Lower(s: string): (t: string)
    ensures |t| == |s|
  {
    seq(|s|, i requires 0 <= i < |s| => LowerChar(s[i]))
  }

  lemma LowerIs(s: string, k: nat)
    requires k < |s|
    ensures 'A' <= s[k] <= 'Z' ==> Lower(s)[k] as int == s[k] as int + 0x20
    ensures !('A' <= s[k] <= 'Z') ==> Lower(s)[k] == s[k]
  {
  }

  lemma {:induction false} LowerSlice(s: string, a: nat, b: nat)
    requires a <= b <= |s|
    ensures Lower(s[a..b]) == Lower(s)[a..b]
  {
  }

  predicate IsSpace(c: char) { 9 <= c as int <= 13 || 28 <= c as int <= 32 }

  predicate IsHexDigit(c: char) { '0' <= c <= '9' || 'a' <= c <= 'f' || 'A' <= c <= 'F' }

  const HEX_DIGITS := "0123456789abcdefABCDEF"

  lemma HexDigitIs(c: char)
    ensures IsHexDigit(c) <==> c in HEX_DIGITS
  {
  }

  function StripLeft(s: string): string {
    if s != [] && IsSpace(s[0]) then StripLeft(s[1..]) else s
  }

  function StripRight(s: string): string {
    if s != [] && IsSpace(s[|s| - 1]) then StripRight(s[..|s| - 1]) else s
  }

  function Strip(s: string): string { StripRight(StripLeft(s)) }

  ghost predicate AllSpace(s: string) { forall k :: 0 <= k < |s| ==> IsSpace(s[k]) }

  /** t is what remains of s without the white space around it. */
  ghost predicate Stripped(s: string, t: string, left: nat) {
    left + |t| <= |s| && t == s[left..left + |t|] && AllSpace(s[..left]) && AllSpace(s[left + |t|..]) &&
    (t != [] ==> !IsSpace(t[0]) && !IsSpace(t[|t| - 1]))
  }

  lemma {:induction false} StripLeftIs(s: string) returns (left: nat)
    ensures left <= |s| && StripLeft(s) == s[left..] && AllSpace(s[..left])
    ensures StripLeft(s) != [] ==> !IsSpace(StripLeft(s)[0])
  {
    left := 0;
    if s != [] && IsSpace(s[0]) {
      left := StripLeftIs(s[1..]);
      left := left + 1;
      assert s[..left] == [s[0]] + s[1..][..left - 1];
    }
  }

  lemma {:induction false} StripRightIs(s: string) returns (right: nat)
    ensures right <= |s| && StripRight(s) == s[..right] && AllSpace(s[right..])
    ensures StripRight(s) != [] ==> !IsSpace(StripRight(s)[right - 1])
  {
    right := |s|;
    if s != [] && IsSpace(s[|s| - 1]) {
      right := StripRightIs(s[..|s| - 1]);
      assert s[right..] == s[..|s| - 1][right..] + [s[|s| - 1]];
    }
  }

  lemma StripIs(s: string) returns (left: nat)
    ensures Stripped(s, Strip(s), left)
  {
    hide StripLeft, StripRight;
    left := StripLeftIs(s);
    var right := StripRightIs(s[left..]);
    var t := s[left..];
    assert s[left + right..] == t[right..];
    assert t[..right] == s[left..left + right];
    if right > 0 {
      assert t[..right][0] == t[0];
    }
  }

  predicate Occurs(pattern: string, text: string, o: nat) {
    o + |pattern| <= |text| && text[o..o + |pattern|] == pattern
  }

  predicate Contains(s: string, part: string) {
    exists o :: 0 <= o <= |s| && Occurs(part, s, o)
  }

  lemma ContainsIs(s: string, part: string)
    ensures Contains(s, part) <==> exists a, b :: s == a + part + b
  {
    if o :| 0 <= o <= |s| && Occurs(part, s, o) {
      assert s == s[..o] + part + s[o + |part|..];
    }
    if a, b :| s == a + part + b {
      assert Occurs(part, s, |a|);
    }
  }
}
