/** The list from its construction through all iterations of the benchmark (core_main.c): whether it is restored
depends on seed and size alone. */
module ListRuns {
  import opened Crc
  import opened Sequences
  import opened MergeOrder
  import opened ItemData
  import opened ListHeap
  import opened Comparators
  import opened Mergesort
  import opened ListBench
  import opened ListInit

  // ---------- seeds and positions ----------

  /** The headers of a list of m get different positions. */
  ghost predicate Apart(m: nat, size: nat, seed: bv16) {
    forall i, j :: 0 <= i < j < m ==> Numbered(i, m, size, seed).idx != Numbered(j, m, size, seed).idx
  }

  /** No mixed position falls among those given in sequence. */
  ghost predicate MixedBehind(m: nat, size: nat, seed: bv16) {
    forall k :: 1 <= k < m - 1 && k >= size / 5 ==> MixedIdx(Word(k), seed) > 0 && MixedIdx(Word(k), seed) >= size / 5
  }

  lemma WordOf(k: nat)
    requires k < 256
    ensures Word(k) as int == k && Word(k) < 256
  {
    assert k % 0x1_0000 == k;
  }

  function ToWord(v: int): bv16
    requires 0 <= v < 0x1_0000
  {
    v as bv16
  }

  lemma MixedBitsOf(k: bv16, seed: bv16)
    ensures 0 <= MixedIdx(k, seed) < 0x1_0000 && ToWord(MixedIdx(k, seed)) == MixedBits(k, seed)
  {
  }

  lemma MixedBitsApart(a: bv16, b: bv16, seed: bv16)
    requires a < 256 && b < 256 && MixedBits(a, seed) == MixedBits(b, seed)
    ensures a == b
  {
  }

  /** Up to 256 mixed positions are different from each other. */
  lemma MixedApart(k: nat, k': nat, seed: bv16)
    requires k < 256 && k' < 256 && MixedIdx(Word(k), seed) == MixedIdx(Word(k'), seed)
    ensures k == k'
  {
    hide MixedBits, MixedIdx, ToWord, Word;
    WordOf(k);
    WordOf(k');
    MixedBitsOf(Word(k), seed);
    MixedBitsOf(Word(k'), seed);
    MixedBitsApart(Word(k), Word(k'), seed);
  }

  lemma SequentialPosition(v: int, m: nat, size: nat, seed: bv16)
    requires m >= 2 && size == m + 1
    ensures 1 <= v < size / 5 ==> Numbered(m - v, m, size, seed).idx == v
  {
  }

  /** Positions of a list of up to 257 headers are all different exactly if the mixed ones lie behind the others, as
  the comment in core_list_init says they do. */
  lemma ApartIffMixedBehind(m: nat, size: nat, seed: bv16)
    requires 2 <= m <= 257 && size == m + 1
    ensures Apart(m, size, seed) <==> MixedBehind(m, size, seed)
  {
    hide InitialData, Word, MixedIdx;
    if Apart(m, size, seed) {
      forall k | 1 <= k < m - 1 && k >= size / 5
        ensures MixedIdx(Word(k), seed) > 0 && MixedIdx(Word(k), seed) >= size / 5
      {
        var v := MixedIdx(Word(k), seed);
        InitialIdxRange(k, size, seed);
        SequentialPosition(v, m, size, seed);
        assert Numbered(m - k, m, size, seed).idx == v;
        assert Numbered(0, m, size, seed).idx == 0;
      }
    } else if MixedBehind(m, size, seed) {
      forall i, j | 0 <= i < j < m
        ensures Numbered(i, m, size, seed).idx != Numbered(j, m, size, seed).idx
      {
        if Numbered(i, m, size, seed).idx == Numbered(j, m, size, seed).idx {
          NumberedRange(i, m, size, seed);
          NumberedRange(j, m, size, seed);
          if i >= 2 && m - i >= size / 5 && m - j >= size / 5 {
            MixedApart(m - i, m - j, seed);
          }
          assert false;
        }
      }
      assert false;
    }
  }

  /** What core_list_init leaves: the headers of the block in stable order of their positions. */
  ghost predicate Initialized(heads: seq<ListHead>, final: seq<ListHead>, size: nat, seed: bv16)
    reads heads, final, (set n | n in heads :: n.info), set n | n in final :: n.info
  {
    NoDup(heads) && |heads| == size && 2 <= |final| == size - 1 &&
    (forall j :: 0 <= j < |final| ==> heads[j].info.item == Numbered(j, |final|, size, seed)) &&
    multiset(final) == multiset(heads[..|final|]) && SortedStably(CmpIdx, BuildOrder(heads, |final|), final)
  }

  /** Different positions, and only they, become strictly increasing ones. */
  lemma InitializedIsStrict(heads: seq<ListHead>, final: seq<ListHead>, size: nat, seed: bv16)
    requires Initialized(heads, final, size, seed)
    ensures NoDup(final) && (StrictlyByIdx(ViewOf(final), final) <==> Apart(|final|, size, seed))
  {
    PermutedNoDup(final, heads[..|final|]);
    if StrictlyByIdx(ViewOf(final), final) {
      StrictIsApart(heads, final, size, seed);
    } else if Apart(|final|, size, seed) {
      ApartIsStrict(heads, final, size, seed);
      assert false;
    }
  }

  lemma StrictIsApart(heads: seq<ListHead>, final: seq<ListHead>, size: nat, seed: bv16)
    requires Initialized(heads, final, size, seed) && StrictlyByIdx(ViewOf(final), final)
    ensures Apart(|final|, size, seed)
  {
    hide Numbered, IndexOf, BuildOrder, SortedStably;
    var m := |final|;
    var built := heads[..m];
    SamePermutation(final, built);
    forall i, j | 0 <= i < j < m
      ensures Numbered(i, m, size, seed).idx != Numbered(j, m, size, seed).idx
    {
      assert built[i] in final && built[j] in final;
      var p :| 0 <= p < m && final[p] == heads[i];
      var q :| 0 <= q < m && final[q] == heads[j];
    }
  }

  lemma ApartIsStrict(heads: seq<ListHead>, final: seq<ListHead>, size: nat, seed: bv16)
    requires Initialized(heads, final, size, seed) && NoDup(final) && Apart(|final|, size, seed)
    ensures StrictlyByIdx(ViewOf(final), final)
  {
    hide Numbered, IndexOf, BuildOrder;
    var m := |final|;
    var built := heads[..m];
    SamePermutation(final, built);
    forall p, q | 0 <= p < q < m
      ensures final[p].info.item.idx < final[q].info.item.idx
    {
      assert final[p] in built && final[q] in built;
      var i :| 0 <= i < m && heads[i] == final[p];
      var j :| 0 <= j < m && heads[j] == final[q];
      assert i != j;
    }
  }

  lemma PermutedNoDup<T>(s: seq<T>, t: seq<T>)
    requires multiset(s) == multiset(t) && NoDup(t)
    ensures NoDup(s)
  {
    NoDupMultiset(t);
    forall i, j | 0 <= i < j < |s|
      ensures s[i] != s[j]
    {
      assert s[i] in multiset(t);
      if s[i] == s[j] {
        TwiceInMultiset(s, i, j);
        assert false;
      }
    }
  }

  lemma TwiceInMultiset<T>(s: seq<T>, i: nat, j: nat)
    requires i < j < |s| && s[i] == s[j]
    ensures multiset(s)[s[i]] >= 2
  {
    assert s == s[..i] + [s[i]] + s[i + 1..j] + [s[j]] + s[j + 1..];
  }

  // ---------- which seeds ----------

  lemma OfficialMixedBits(k: bv16)
    requires k < 256
    ensures MixedBits(k, 0) >= k && MixedBits(k, 0x3415) >= 0x100 && MixedBits(k, 8) >= 7
  {
  }

  lemma WordOrder(a: bv16, b: bv16)
    requires a <= b && a < 256
    ensures a as int <= b as int
  {
  }

  /** The seeds of the validation, performance and profile runs, with blocks of the sizes they are used with: all lists
  they build are restored by every call. */
  lemma OfficialSeedsApart(m: nat, size: nat, seed: bv16)
    requires 2 <= m <= 257 && size == m + 1
    requires seed == 0 || seed == 0x3415 || (seed == 8 && size < 40)
    ensures Apart(m, size, seed)
  {
    hide Word, MixedBits;
    forall k | 1 <= k < m - 1 && k >= size / 5
      ensures MixedIdx(Word(k), seed) > 0 && MixedIdx(Word(k), seed) >= size / 5
    {
      WordOf(k);
      OfficialMixedBits(Word(k));
      WordOrder(Word(k), MixedBits(Word(k), 0));
      WordOrder(0xff, MixedBits(Word(k), 0x3415));
      WordOrder(7, MixedBits(Word(k), 8));
    }
    ApartIffMixedBehind(m, size, seed);
  }

  /** Seed 16 with a block of 2040 bytes: the list built is not restored by a single find for position 0. */
  lemma SeedSixteenLosesOrder(heads: seq<ListHead>, final: seq<ListHead>)
    requires Initialized(heads, final, Capacity(2040), 16)
    ensures NoDup(final) && !RestoredAfter(ViewOf(final), final, 1, 0)
  {
    InitializedIsStrict(heads, final, 100, 16);
    SeedWithEqualPositions();
    assert Numbered(92, 99, 100, 16).idx == Numbered(76, 99, 100, 16).idx;
    OneFindShowsTies(ViewOf(final), final);
  }

  // ---------- the iterations ----------

  /** What the second call of each iteration returns; no evaluation is involved. */
  ghost function BackwardCrc(view: map<ListHead, Item>, s: seq<ListHead>, seed3: int): bv16
    requires |s| >= 3 && NoDup(s) && forall n :: n in s ==> n in view
  {
    var st := FindRounds(view, Rounds(seed3), Finds(s, -1, 0, 0, 0));
    BenchCrc(st, ItemsIn(view, st.order), LastTarget(seed3, st.idx, 0), view[s[0]].data16)
  }

  /** The list is the one that the benchmark starts from. */
  ghost predicate Ready(list: ListHead, s: seq<ListHead>, items: set<ListData>, view: map<ListHead, Item>)
    reads s, (set n | n in s)`info, set n | n in s :: n.info
  {
    IsList(list, s) && 3 <= |s| <= MAX_S32 && (forall n :: n in s ==> n.info in items) &&
    view == ViewOf(s) && StrictlyByIdx(view, s) && forall n :: n in s ==> Regenerated(view[n].data16)
  }

  /** One call leaves the list as it was: headers, order, items. */
  method BenchOnce(res: CoreResults, finder_idx: int, uninitialised: bv16, ghost s: seq<ListHead>,
                   ghost items: set<ListData>, ghost view: map<ListHead, Item>) returns (crc: bv16)
    requires Ready(res.list, s, items, view)
    modifies (set n | n in s), items, res
    ensures Ready(res.list, s, items, view) && forall n :: n in s ==> n.info == old(n.info)
    ensures NoDup(s) && (finder_idx == -1 && res.seed3 > 0 ==> crc == BackwardCrc(view, s, res.seed3))
  {
    hide FindRounds, BenchCrc, IsList, StrictlyByIdx, Regenerate, Regenerated, InOrder, Positions, SortedStably;
    ListFront(res.list, s);
    ghost var head, mid, midItems, final;
    crc, head, mid, midItems, final := BenchList(res, finder_idx, uninitialised, s, items);
    assert head == res.list && final == s;
    forall n | n in s
      ensures n.info.item == view[n]
    {
      RegenerateFacts(view[n].data16);
    }
    assert ViewOf(s) == view;
    assert final[0] in s;
  }

  method BenchBothWays(res: CoreResults, uninitialised: bv16, ghost s: seq<ListHead>, ghost items: set<ListData>,
                       ghost view: map<ListHead, Item>) returns (crc: bv16)
    requires Ready(res.list, s, items, view)
    modifies (set n | n in s), items, res
    ensures Ready(res.list, s, items, view) && forall n :: n in s ==> n.info == old(n.info)
    ensures NoDup(s) && (res.seed3 > 0 ==> crc == BackwardCrc(view, s, res.seed3))
  {
    hide Ready, BackwardCrc;
    ReadyIsNoDup(res.list, s, items, view);
    crc := BenchOnce(res, 1, uninitialised, s, items, view);
    res.crc := Crcu16(crc, res.crc);
    crc := BenchOnce(res, -1, uninitialised, s, items, view);
    res.crc := Crcu16(crc, res.crc);
  }

  /** After any number of iterations, each with a call forward and one backward, the list is the one before, and each
  backward call has returned the same. */
  method Iterate(res: CoreResults, iterations: nat, uninitialised: bv16, ghost s: seq<ListHead>,
                 ghost items: set<ListData>, ghost view: map<ListHead, Item>)
    returns (crclist: bv16, ghost backward: seq<bv16>)
    requires Ready(res.list, s, items, view)
    modifies (set n | n in s), items, res
    ensures Ready(res.list, s, items, view) && forall n :: n in s ==> n.info == old(n.info)
    ensures |backward| == iterations && NoDup(s)
    ensures res.seed3 > 0 ==> forall i :: 0 <= i < iterations ==> backward[i] == BackwardCrc(view, s, res.seed3)
  {
    hide Ready, BackwardCrc;
    ReadyIsNoDup(res.list, s, items, view);
    res.crc, res.crcmatrix, res.crcstate := 0, 0, 0;
    crclist, backward := 0, [];
    for i := 0 to iterations
      invariant Ready(res.list, s, items, view) && forall n :: n in s ==> n.info == old(n.info)
      invariant |backward| == i
      invariant res.seed3 > 0 ==> forall k :: 0 <= k < i ==> backward[k] == BackwardCrc(view, s, res.seed3)
    {
      var crc := BenchBothWays(res, uninitialised, s, items, view);
      backward := backward + [crc];
      if i == 0 {
        crclist := res.crc;
      }
    }
  }

  lemma ReadyIsNoDup(list: ListHead, s: seq<ListHead>, items: set<ListData>, view: map<ListHead, Item>)
    requires Ready(list, s, items, view)
    ensures NoDup(s) && |s| >= 3 && forall n :: n in s ==> n in view
  {
    ListFront(list, s);
  }

  /** The list that Init built is ready for the benchmark. */
  lemma InitializedIsReady(list: ListHead, heads: seq<ListHead>, datas: seq<ListData>, final: seq<ListHead>,
                           size: nat, seed: bv16)
    requires Initialized(heads, final, size, seed) && Apart(|final|, size, seed)
    requires IsList(list, final) && 3 <= |final| <= MAX_S32 && |datas| == size && AllSettled(CmpIdx, null, final)
    requires forall j :: 0 <= j < |final| ==> heads[j].info == datas[j]
    ensures Ready(list, final, (set d | d in datas), ViewOf(final))
    ensures (forall j :: 0 <= j < |final| ==> heads[j] in final) && forall n :: n in final ==> n in heads
  {
    hide Numbered, IndexOf, BuildOrder, SortedStably, Apart, IsList, NoDup, Regenerate, StrictlyByIdx, Regenerated;
    InitializedIsStrict(heads, final, size, seed);
    var built := heads[..|final|];
    SamePermutation(final, built);
    forall j | 0 <= j < |final|
      ensures heads[j] in final
    {
      assert built[j] in final;
    }
    forall n | n in final
      ensures n.info in datas && Regenerated(n.info.item.data16)
    {
      assert n in built;
      SettledInList(final, n);
      SettledIsRegenerated(n.info.item);
    }
  }

  lemma SettledIsRegenerated(item: Item)
    requires Settled(CmpIdx, null, item)
    ensures Regenerated(item.data16)
  {
  }

  /** What is left as it was is still what Init built. */
  lemma StillInitialized(heads: seq<ListHead>, final: seq<ListHead>, size: nat, seed: bv16, view: map<ListHead, Item>)
    requires NoDup(heads) && |heads| == size && 2 <= |final| == size - 1
    requires multiset(final) == multiset(heads[..|final|])
    requires view == ViewOf(final) && StrictlyByIdx(view, final)
    requires forall j :: 0 <= j < |final| ==> heads[j] in final && view[heads[j]] == Numbered(j, |final|, size, seed)
    ensures Initialized(heads, final, size, seed)
  {
    hide Numbered, IndexOf, BuildOrder;
  }

  /** core_list_init and then the iterations: for every block and seed that keep positions apart the list built is
  still there at the end, item by item. */
  method InitAndIterate(blksize: nat, heads: seq<ListHead>, datas: seq<ListData>, seed: bv16, seed3: int,
                        bench: seq<BenchCall> -> bv16, iterations: nat, uninitialised: bv16)
    returns (res: CoreResults, crclist: bv16, ghost final: seq<ListHead>)
    requires 120 <= blksize && Capacity(blksize) / 5 <= 0x7fff && Apart(Capacity(blksize) - 1, Capacity(blksize), seed)
    requires |heads| == |datas| == Capacity(blksize) && NoDup(heads) && NoDup(datas)
    modifies heads, datas
    ensures IsList(res.list, final) && Initialized(heads, final, Capacity(blksize), seed)
  {
    hide Apart, Numbered, Regenerated, StrictlyByIdx, IsList, SortedStably, BuildOrder, AllSettled, NoDup;
    var list;
    list, final := Init(blksize, heads, datas, seed);
    assert Initialized(heads, final, Capacity(blksize), seed);
    hide Initialized, Capacity;
    ListFront(list, final);
    InitializedIsReady(list, heads, datas, final, Capacity(blksize), seed);
    ghost var items, view := (set d | d in datas), ViewOf(final);
    res := new CoreResults(list, seed3, bench, 0);
    ghost var backward;
    crclist, backward := Iterate(res, iterations, uninitialised, final, items, view);
    StillInitialized(heads, final, Capacity(blksize), seed, view);
  }
}
