/** The lineage check _verify_hops of verify_public_receipts.py. */
module HopChain {
  import opened Ascii

  /** A value of a record: a text, or something else or nothing. */
  datatype Field = Text(s: string) | NoText

  datatype Hop = NotARecord | Hop(commit: Field, resulting: Field, subject: Field)

  datatype Hops = Missing | NotAList | Chain(list: seq<Hop>)

  /** A supersession record; a missing superseded_by counts as the empty text. */
  datatype Record = Record(hops: Hops, supersededBy: Field)

  /** What git can tell: the hash of a path at a commit, and the subject line of a commit. */
  datatype Git = Git(available: bool, blob: (string, string) -> Option<string>, subject: string -> Option<string>)

  datatype Problem = NoHops | NoGit | Malformed | NotARecordAt(i: nat) | NoCommit(i: nat) | MutableRef(i: nat)
    | NoSubject(i: nat) | WrongSubject(i: nat) | BadHash(i: nat) | NoChange(i: nat) | Unresolved(i: nat)
    | WrongBlob(i: nat) | NoParent(i: nat) | Gap(i: nat) | WrongEnd | FirstNotNamed

  predicate IsImmutable(commit: string) {
    7 <= |commit| <= 40 && forall i :: 0 <= i < |commit| ==> IsHexDigit(commit[i])
  }

  predicate IsHash(s: string) {
    |s| == 64 && forall i :: 0 <= i < |s| ==> IsHexDigit(s[i])
  }

  lemma ImmutableIs(commit: string)
    ensures IsImmutable(commit) <==>
            7 <= |commit| <= 40 && forall i :: 0 <= i < |commit| ==> commit[i] in HEX_DIGITS
  {
  }

  lemma HashIs(s: string)
    ensures IsHash(s) <==> |s| == 64 && forall i :: 0 <= i < |s| ==> s[i] in HEX_DIGITS
  {
  }

  /** The hop is a record with an immutable commit and a hash. */
  predicate WellFormed(hop: Hop) {
    hop.Hop? && hop.commit.Text? && IsImmutable(Strip(hop.commit.s)) && hop.resulting.Text? && IsHash(hop.resulting.s)
  }

  function Result(hop: Hop): string {
    if hop.Hop? && hop.resulting.Text? then hop.resulting.s else []
  }

  /** The hash in front of hop i. */
  function Before(cited: string, hops: seq<Hop>, i: nat): string
    requires i <= |hops|
  {
    if i == 0 then cited else Result(hops[i - 1])
  }

  /** History confirms the hop: its commit changed the file from the hash before to the resulting one. */
  predicate Confirmed(hop: Hop, before: string, rel: string, git: Git) {
    WellFormed(hop) &&
    var commit, after := Strip(hop.commit.s), Lower(hop.resulting.s);
    after != Lower(before) &&
    git.blob(commit, rel) == Some(after) && git.blob(commit + "^", rel) == Some(Lower(before)) &&
    (hop.subject.Text? ==> git.subject(commit) == Some(Strip(hop.subject.s)))
  }

  /** A chain of confirmed hops from the cited hash to the current one. */
  ghost predicate IsLineage(hops: seq<Hop>, cited: string, current: string, rel: string, git: Git) {
    hops != [] &&
    (forall i {:trigger Before(cited, hops, i)} :: 0 <= i < |hops| ==>
       Confirmed(hops[i], Before(cited, hops, i), rel, git)) &&
    Lower(Before(cited, hops, |hops|)) == Lower(current)
  }

  predicate NamesFirst(hops: seq<Hop>, supersededBy: Field)
    requires hops != []
  {
    hops[0].Hop? && hops[0].commit.Text? && supersededBy.Text? ==> Contains(supersededBy.s, Strip(hops[0].commit.s))
  }

  ghost predicate IsProved(record: Record, cited: string, current: string, rel: string, git: Git) {
    git.available && record.hops.Chain? && IsLineage(record.hops.list, cited, current, rel, git) &&
    NamesFirst(record.hops.list, record.supersededBy)
  }

  /** What is wrong with the commit of a hop and its subject. */
  method CommitProblems(i: nat, hop: Hop, git: Git) returns (problems: seq<Problem>)
    requires hop.Hop?
    ensures problems == [] <==>
            hop.commit.Text? && IsImmutable(Strip(hop.commit.s)) &&
            (hop.subject.Text? ==> git.subject(Strip(hop.commit.s)) == Some(Strip(hop.subject.s)))
  {
    problems := [];
    if !hop.commit.Text? || Strip(hop.commit.s) == [] {
      problems := [NoCommit(i)];
    } else if !IsImmutable(Strip(hop.commit.s)) {
      problems := [MutableRef(i)];
    } else if hop.subject.Text? {
      var actual := git.subject(Strip(hop.commit.s));
      if actual == None {
        problems := [NoSubject(i)];
      } else if actual.value != Strip(hop.subject.s) {
        problems := [WrongSubject(i)];
      }
    }
  }

  /** What is wrong with the content that the commit of a hop produced. */
  method BlobProblems(i: nat, commit: string, got: string, previous: string, rel: string, git: Git)
    returns (problems: seq<Problem>)
    ensures problems == [] <==>
            git.blob(commit, rel) == Some(Lower(got)) && git.blob(commit + "^", rel) == Some(Lower(previous))
  {
    problems := [];
    var actual := git.blob(commit, rel);
    if actual == None {
      problems := [Unresolved(i)];
    } else if actual.value != Lower(got) {
      problems := [WrongBlob(i)];
    } else {
      var before := git.blob(commit + "^", rel);
      if before == None {
        problems := [NoParent(i)];
      } else if before.value != Lower(previous) {
        problems := [Gap(i)];
      }
    }
  }

  /** What is wrong with one hop, and the hash that the chain stands at behind it. */
  method HopProblems(i: nat, hop: Hop, before: string, rel: string, git: Git)
    returns (problems: seq<Problem>, previous: string)
    ensures problems == [] <==> Confirmed(hop, before, rel, git)
    ensures problems == [] ==> previous == Result(hop)
  {
    hide Strip, IsHash, Lower;
    previous := before;
    if !hop.Hop? {
      return [NotARecordAt(i)], previous;
    }
    problems := CommitProblems(i, hop, git);
    if !hop.resulting.Text? || !IsHash(hop.resulting.s) {
      return problems + [BadHash(i)], previous;
    }
    var got := hop.resulting.s;
    if Lower(got) == Lower(previous) {
      problems := problems + [NoChange(i)];
    }
    previous := got;
    if hop.commit.Text? && Strip(hop.commit.s) != [] {
      var more := BlobProblems(i, Strip(hop.commit.s), got, before, rel, git);
      problems := problems + more;
    }
  }

  /** No problem is reported exactly if history proves the record. */
  method VerifyHops(record: Record, cited: string, current: string, rel: string, git: Git)
    returns (problems: seq<Problem>)
    ensures problems == [] <==> IsProved(record, cited, current, rel, git)
  {
    hide Confirmed, Contains, Strip, Lower;
    if record.hops.Missing? {
      return [NoHops];
    }
    if !git.available {
      return [NoGit];
    }
    if !record.hops.Chain? || record.hops.list == [] {
      return [Malformed];
    }
    var hops := record.hops.list;
    problems := [];
    var previous := cited;
    for i := 0 to |hops|
      invariant problems == [] <==>
                forall k {:trigger Before(cited, hops, k)} :: 0 <= k < i ==>
                  Confirmed(hops[k], Before(cited, hops, k), rel, git)
      invariant problems == [] ==> previous == Before(cited, hops, i)
    {
      var more;
      more, previous := HopProblems(i + 1, hops[i], previous, rel, git);
      problems := problems + more;
    }
    if Lower(previous) != Lower(current) {
      problems := problems + [WrongEnd];
    }
    var first := hops[0];
    if first.Hop? && first.commit.Text? && Strip(first.commit.s) != [] && record.supersededBy.Text? {
      if !Contains(record.supersededBy.s, Strip(first.commit.s)) {
        problems := problems + [FirstNotNamed];
      }
    }
    if Confirmed(first, cited, rel, git) {
      ConfirmedIsWellFormed(first, cited, rel, git);
    }
  }

  lemma ConfirmedIsWellFormed(hop: Hop, before: string, rel: string, git: Git)
    requires Confirmed(hop, before, rel, git)
    ensures WellFormed(hop)
  {
  }

  /** The record without hops i..j. */
  function Dropped(record: Record, i: nat, j: nat): Record
    requires record.hops.Chain? && i <= j <= |record.hops.list|
  {
    record.(hops := Chain(record.hops.list[..i] + record.hops.list[j..]))
  }

  /** Dropping hops i..j from a proved record goes unnoticed exactly if they end at the hash they began with and,
  where they are the first, superseded_by names the hop behind them as well. */
  lemma CompressionIsSeen(record: Record, i: nat, j: nat, cited: string, current: string, rel: string, git: Git)
    requires IsProved(record, cited, current, rel, git) && i < j <= |record.hops.list| && j - i < |record.hops.list|
    ensures var hops := record.hops.list;
            IsProved(Dropped(record, i, j), cited, current, rel, git) <==>
            Lower(Before(cited, hops, i)) == Lower(Before(cited, hops, j)) &&
            (i > 0 || NamesFirst(hops[j..], record.supersededBy))
  {
    hide IsLineage, Before, Lower, Contains, Strip;
    LineageWithout(record.hops.list, i, j, cited, current, rel, git);
    if i == 0 {
      assert Dropped(record, i, j).hops.list == record.hops.list[j..];
    }
  }

  lemma LineageWithout(hops: seq<Hop>, i: nat, j: nat, cited: string, current: string, rel: string, git: Git)
    requires IsLineage(hops, cited, current, rel, git) && i < j <= |hops| && j - i < |hops|
    ensures IsLineage(hops[..i] + hops[j..], cited, current, rel, git) <==>
            Lower(Before(cited, hops, i)) == Lower(Before(cited, hops, j))
  {
    hide Confirmed, Lower, Before;
    OtherHopsStay(hops, i, j, cited, rel, git);
    if j < |hops| {
      ConfirmedFrom(hops[j], Before(cited, hops, j), Before(cited, hops, i), rel, git);
    }
  }

  function Digest(c: char): string { seq(64, _ => c) }

  function Commit(c: char): string { seq(7, _ => c) }

  /** A file that is changed, changed back and changed again: three commits, three true hops. */
  function Reverted(): Record {
    Record(Chain([Hop(Text(Commit('a')), Text(Digest('1')), NoText), Hop(Text(Commit('b')), Text(Digest('0')), NoText),
                  Hop(Text(Commit('c')), Text(Digest('1')), NoText)]), Text(Commit('a')))
  }

  /** Commit b left 0 and found 1, the others left 1 and found 0; a parent has one more character. */
  function RevertedBlob(commit: string): Option<string> {
    if commit == [] || commit[0] !in {'a', 'b', 'c'} then None
    else Some(Digest(if (commit[0] == 'b') == (|commit| == 7) then '0' else '1'))
  }

  function RevertedHistory(): Git {
    Git(true, (commit, rel) => RevertedBlob(commit), _ => None)
  }

  /** It is proved, and so it is without the last two hops. */
  lemma UnnoticedCompression(rel: string)
    ensures IsProved(Reverted(), Digest('0'), Digest('1'), rel, RevertedHistory())
    ensures IsProved(Dropped(Reverted(), 1, 3), Digest('0'), Digest('1'), rel, RevertedHistory())
  {
    hide Confirmed, Digest, Commit, RevertedHistory, Strip;
    var hops := Reverted().hops.list;
    ConfirmedIn('a', '0', '1', rel);
    ConfirmedIn('b', '1', '0', rel);
    ConfirmedIn('c', '0', '1', rel);
    CommitFacts('a');
    assert RevertedHistory().available by {
      HistoryIsThere();
    }
    CompressionIsSeen(Reverted(), 1, 3, Digest('0'), Digest('1'), rel, RevertedHistory());
  }

  lemma HistoryIsThere()
    ensures RevertedHistory().available
  {
  }

  lemma ConfirmedIn(c: char, before: char, after: char, rel: string)
    requires c in {'a', 'b', 'c'}
    requires after == (if c == 'b' then '0' else '1') && before == (if c == 'b' then '1' else '0')
    ensures Confirmed(Hop(Text(Commit(c)), Text(Digest(after)), NoText), Digest(before), rel, RevertedHistory())
  {
    CommitFacts(c);
    DigestFacts(before);
    DigestFacts(after);
    assert Digest(before)[0] != Digest(after)[0];
  }

  lemma CommitFacts(c: char)
    requires 'a' <= c <= 'c'
    ensures IsImmutable(Commit(c)) && Strip(Commit(c)) == Commit(c) && Contains(Commit(c), Strip(Commit(c)))
  {
    assert Occurs(Commit(c), Commit(c), 0);
  }

  lemma DigestFacts(c: char)
    requires '0' <= c <= '9'
    ensures IsHash(Digest(c)) && Lower(Digest(c)) == Digest(c)
  {
  }

  lemma OtherHopsStay(hops: seq<Hop>, i: nat, j: nat, cited: string, rel: string, git: Git)
    requires i < j <= |hops|
    requires forall k {:trigger Before(cited, hops, k)} :: 0 <= k < |hops| ==>
               Confirmed(hops[k], Before(cited, hops, k), rel, git)
    ensures var rest := hops[..i] + hops[j..];
            ((forall k {:trigger Before(cited, rest, k)} :: 0 <= k < |rest| ==>
                Confirmed(rest[k], Before(cited, rest, k), rel, git)) <==>
             (j < |hops| ==> Confirmed(hops[j], Before(cited, hops, i), rel, git))) &&
            Before(cited, rest, |rest|) == Before(cited, hops, if j < |hops| then |hops| else i)
  {
    hide Confirmed, Result;
    var rest := hops[..i] + hops[j..];
    forall k | 0 <= k < |rest| && k != i
      ensures Confirmed(rest[k], Before(cited, rest, k), rel, git)
    {
      var k' := if k < i then k else k - i + j;
      assert rest[k] == hops[k'] && Before(cited, rest, k) == Before(cited, hops, k');
    }
    assert j < |hops| ==> rest[i] == hops[j] && Before(cited, rest, i) == Before(cited, hops, i);
  }

  lemma ConfirmedFrom(hop: Hop, before: string, other: string, rel: string, git: Git)
    requires Confirmed(hop, before, rel, git)
    ensures Confirmed(hop, other, rel, git) <==> Lower(before) == Lower(other)
  {
  }
}
