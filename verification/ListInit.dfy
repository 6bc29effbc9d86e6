/** core_list_init: the list is carved out of one memory block and sorted by position. */
module ListInit {
  import opened Sequences
  import opened MergeOrder
  import opened ItemData
  import opened ListHeap
  import opened Comparators
  import opened Mergesort

  const HEAD_BYTES := 16
  const DATA_BYTES := 4

  /** The number of headers, and of data items, that the block is divided into. */
  function Capacity(blksize: nat): int { blksize / (HEAD_BYTES + DATA_BYTES) - 2 }

  /** Headers come first in the block, then data; nothing overlaps and nothing is outside. */
  lemma RegionsDisjoint(blksize: nat, i: nat, i': nat, j: nat, j': nat)
    requires 0 <= i < i' < Capacity(blksize) && 0 <= j < j' < Capacity(blksize)
    ensures var data := HEAD_BYTES * Capacity(blksize);
      && HEAD_BYTES * i + HEAD_BYTES <= HEAD_BYTES * i' && HEAD_BYTES * i' + HEAD_BYTES <= data
      && data + DATA_BYTES * j + DATA_BYTES <= data + DATA_BYTES * j'
      && data + DATA_BYTES * j' + DATA_BYTES <= blksize
  {
  }

  function Word(i: nat): bv16 { (i % 0x1_0000) as bv16 }

  /** The data of the i-th item: four bits of seed and three bits of i, in both bytes. */
  function InitialData(i: bv16, seed: bv16): bv16 {
    var datpat := (seed ^ i) & 0x000f;
    var dat := (datpat << 3) | (i & 0x0007);
    (dat << 8) | dat
  }

  lemma InitialDataRegenerated(i: bv16, seed: bv16)
    ensures Regenerated(InitialData(i, seed))
  {
  }

  /** The position given to the k-th header: the first fifth in order, then mixed up. */
  function InitialIdx(k: nat, size: nat, seed: bv16): int {
    if k < size / 5 then k else MixedIdx(Word(k), seed)
  }

  function MixedBits(k: bv16, seed: bv16): bv16 {
    0x3fff & ((((k + 1) & 0x0007) << 8) | (k ^ seed))
  }

  function MixedIdx(k: bv16, seed: bv16): int { MixedBits(k, seed) as int }

  lemma InitialIdxRange(k: nat, size: nat, seed: bv16)
    requires size / 5 <= 0x7fff
    ensures 0 <= InitialIdx(k, size, seed) < 0x7fff
  {
  }

  /** Seed 16 and a block of 2040 bytes give two headers the same position, so that the
  condition under which core_bench_list restores the order is not met by every list. */
  lemma SeedWithEqualPositions()
    ensures Capacity(2040) == 100
    ensures InitialIdx(7, 100, 16) == InitialIdx(23, 100, 16)
  {
  }

  /** What is stored at index j of the data region, while m headers are in use. */
  function InitialItem(j: nat, seed: bv16): Item {
    if j == 0 then Item(0x8080, 0)
    else if j == 1 then Item(0xffff, 0x7fff)
    else Item(InitialData(Word(j - 2), seed), 0x7fff)
  }

  /** The headers in list order: the newest is behind the first. */
  function BuildOrder<T>(heads: seq<T>, m: nat): (s: seq<T>)
    requires 1 <= m <= |heads|
    ensures |s| == m && s[0] == heads[0] && forall k :: 1 <= k < m ==> s[k] == heads[m - k]
  {
    seq(m, k requires 0 <= k < m => if k == 0 then heads[0] else heads[m - k])
  }

  lemma BuildOrderNext<T>(heads: seq<T>, m: nat)
    requires 1 <= m < |heads|
    ensures BuildOrder(heads, m + 1) == [heads[0], heads[m]] + BuildOrder(heads, m)[1..]
  {
  }

  /** The first m headers form the list, each with its own data item. */
  ghost predicate Built(heads: seq<ListHead>, datas: seq<ListData>, m: nat, seed: bv16)
    reads heads, datas
  {
    1 <= m <= |heads| == |datas| && NoDup(heads) && NoDup(datas) &&
    IsList(heads[0], BuildOrder(heads, m)) &&
    forall j :: 0 <= j < m ==> heads[j].info == datas[j] && datas[j].item == InitialItem(j, seed)
  }

  /** Inserts behind insert_point if both regions have room, and does nothing otherwise. */
  method InsertNew(insert_point: ListHead, info: Item, heads: seq<ListHead>, datas: seq<ListData>,
                   memblock0: nat, datablock0: nat, ghost s: seq<ListHead>)
    returns (newitem: ListHead?, memblock: nat, datablock: nat)
    requires |heads| == |datas| && s != [] && IsList(insert_point, s)
    requires memblock0 + 1 < |heads| ==> heads[memblock0] !in s
    modifies insert_point, heads, datas
    ensures memblock0 + 1 >= |heads| || datablock0 + 1 >= |heads| ==>
              newitem == null && memblock == memblock0 && datablock == datablock0 &&
              unchanged(insert_point) && unchanged(heads) && unchanged(datas)
    ensures memblock0 + 1 < |heads| && datablock0 + 1 < |heads| ==>
              memblock == memblock0 + 1 && datablock == datablock0 + 1 && newitem == heads[memblock0] &&
              IsList(insert_point, [s[0], heads[memblock0]] + s[1..]) &&
              heads[memblock0].info == datas[datablock0] && datas[datablock0].item == info &&
              (forall n :: n in heads && n != heads[memblock0] ==> n.info == old(n.info)) &&
              (forall d :: d in datas && d != datas[datablock0] ==> d.item == old(d.item))
  {
    memblock, datablock := memblock0, datablock0;
    if memblock + 1 >= |heads| {
      return null, memblock, datablock;
    }
    if datablock + 1 >= |datas| {
      return null, memblock, datablock;
    }
    var node := heads[memblock];
    memblock := memblock + 1;
    node.next := insert_point.next;
    insert_point.next := node;
    node.info := datas[datablock];
    datablock := datablock + 1;
    node.info.item := info;
    newitem := node;
  }

  /** Inserting one more item keeps what has been built, or changes nothing when there is no room. */
  method InsertItem(list: ListHead, info: Item, heads: seq<ListHead>, datas: seq<ListData>, m0: nat, seed: bv16)
    returns (m: nat)
    requires Built(heads, datas, m0, seed) && list == heads[0] && m0 < |heads|
    requires m0 + 1 < |heads| ==> info == InitialItem(m0, seed)
    modifies heads, datas
    ensures m == if m0 + 1 < |heads| then m0 + 1 else m0
    ensures Built(heads, datas, m, seed)
  {
    hide InitialItem;
    ghost var s := BuildOrder(heads, m0);
    var newitem, datablock;
    newitem, m, datablock := InsertNew(list, info, heads, datas, m0, m0, s);
    if m0 + 1 < |heads| {
      BuildOrderNext(heads, m0);
    }
  }

  /** The first header, the sentinel, and then up to |heads| items; one slot stays unused. */
  method Fill(heads: seq<ListHead>, datas: seq<ListData>, seed: bv16)
    requires |heads| == |datas| >= 3 && NoDup(heads) && NoDup(datas)
    modifies heads, datas
    ensures Built(heads, datas, |heads| - 1, seed)
  {
    hide InitialData, Word;
    var list := heads[0];
    list.next := null;
    list.info := datas[0];
    list.info.item := Item(0x8080, 0x0000);
    var memblock := 1;
    assert BuildOrder(heads, 1) == [heads[0]];
    memblock := InsertItem(list, Item(0xffff, 0x7fff), heads, datas, memblock, seed);
    var i := 0;
    while i < |heads|
      invariant i <= |heads| && memblock == if i + 2 < |heads| then i + 2 else |heads| - 1
      invariant Built(heads, datas, memblock, seed)
    {
      memblock := InsertItem(list, Item(InitialData(Word(i), seed), 0x7fff), heads, datas, memblock, seed);
      i := i + 1;
    }
  }

  /** The position loop: every header but the first and the last gets its position. */
  method Index(heads: seq<ListHead>, datas: seq<ListData>, ghost m: nat, size: nat, seed: bv16)
    requires Built(heads, datas, m, seed) && m >= 2
    modifies datas
    ensures IsList(heads[0], BuildOrder(heads, m))
    ensures forall j :: 0 <= j < m ==> heads[j].info == datas[j] && datas[j].item == Numbered(j, m, size, seed)
  {
    hide InitialItem, MixedIdx, Word;
    ghost var s := BuildOrder(heads, m);
    ListFront(heads[0], s);
    var finder := heads[0].next;
    var i := 1;
    while finder.next != null
      invariant 1 <= i < m && finder == s[i]
      invariant forall j :: 0 <= j < m ==>
        datas[j].item == if m - i < j < m then Numbered(j, m, size, seed) else InitialItem(j, seed)
      decreases m - i
    {
      if i < size / 5 {
        finder.info.item := finder.info.item.(idx := i);
      } else {
        finder.info.item := finder.info.item.(idx := MixedIdx(Word(i), seed));
      }
      finder := finder.next;
      i := i + 1;
    }
  }

  /** Item j of a list of m headers, numbered by its place in the list. */
  function Numbered(j: nat, m: nat, size: nat, seed: bv16): Item {
    if 2 <= j < m then InitialItem(j, seed).(idx := InitialIdx(m - j, size, seed)) else InitialItem(j, seed)
  }

  // ---------- the items in their own terms ----------

  /** Bits 0-2 are those of i, bits 3-6 the low four of seed XOR i, bit 7 is clear, and the upper byte is the lower. */
  predicate IsBuiltData(data: bv16, i: bv16, seed: bv16) {
    data & 0x0007 == i & 0x0007 && (data >> 3) & 0x000f == (seed ^ i) & 0x000f && data & 0x0080 == 0 &&
    data >> 8 == data & 0x00ff
  }

  /** The low 14 bits of k XOR seed, with the low three bits of k + 1 put over bits 8-10. */
  predicate IsMixed(x: bv16, k: bv16, seed: bv16) {
    x & 0x00ff == (k ^ seed) & 0x00ff && (x >> 8) & 0x0007 == ((k + 1) & 0x0007) | (((k ^ seed) >> 8) & 0x0007) &&
    x & 0x3800 == (k ^ seed) & 0x3800 && x & 0xc000 == 0
  }

  /** The item at index j of the data region, in a list of m headers: the head, the sentinel, or item j - 2, at place
  m - j of the list. */
  predicate IsBuiltItem(item: Item, j: nat, m: nat, size: nat, seed: bv16)
    requires j < m
  {
    if j == 0 then item == Item(0x8080, 0)
    else if j == 1 then item == Item(0xffff, 0x7fff)
    else
      var k := m - j;
      IsBuiltData(item.data16, ((j - 2) % 0x1_0000) as bv16, seed) &&
      if k < size / 5 then item.idx == k
      else 0 <= item.idx < 0x4000 && IsMixed(item.idx as bv16, (k % 0x1_0000) as bv16, seed)
  }

  lemma InitialDataIsBuilt(i: bv16, seed: bv16)
    ensures IsBuiltData(InitialData(i, seed), i, seed)
  {
  }

  lemma MixedBitsAreMixed(k: bv16, seed: bv16)
    ensures IsMixed(MixedBits(k, seed), k, seed)
  {
  }

  lemma MixedIdxBits(k: bv16, seed: bv16)
    ensures 0 <= MixedIdx(k, seed) < 0x4000 && MixedIdx(k, seed) as bv16 == MixedBits(k, seed)
  {
  }

  lemma NumberedIsBuilt(j: nat, m: nat, size: nat, seed: bv16)
    requires j < m
    ensures IsBuiltItem(Numbered(j, m, size, seed), j, m, size, seed)
  {
    hide InitialData, IsBuiltData, MixedBits, MixedIdx, IsMixed;
    if j >= 2 {
      InitialDataIsBuilt(Word(j - 2), seed);
      MixedBitsAreMixed(Word(m - j), seed);
      MixedIdxBits(Word(m - j), seed);
    }
  }

  /** The block is given as the headers and data items that fit in it. */
  method Init(blksize: nat, heads: seq<ListHead>, datas: seq<ListData>, seed: bv16)
    returns (list: ListHead?, ghost final: seq<ListHead>)
    requires 100 <= blksize && Capacity(blksize) / 5 <= 0x7fff
    requires |heads| == |datas| == Capacity(blksize) && NoDup(heads) && NoDup(datas)
    modifies heads, datas
    ensures IsList(list, final) && |final| == blksize / 20 - 3
    ensures forall j :: 0 <= j < |final| ==>
      heads[j].info == datas[j] && datas[j].item == Numbered(j, |final|, |heads|, seed)
    ensures forall j :: 0 <= j < |final| ==> IsBuiltItem(datas[j].item, j, |final|, |heads|, seed)
    ensures multiset(final) == multiset(heads[..|final|])
    ensures SortedStably(CmpIdx, BuildOrder(heads, |final|), final)
    ensures AllSettled(CmpIdx, null, final)
    ensures final[0] == heads[0] && final[|final| - 1] == heads[1]
  {
    hide Numbered, Evolves, SortedStably, AllSettled, IsList, BuildOrder, Settled, NoDup, Built, IsBuiltItem;
    ghost var m := |heads| - 1;
    ghost var s := BuildOrder(heads, m);
    Fill(heads, datas, seed);
    Index(heads, datas, m, |heads|, seed);
    BuildOrderElements(heads, m);
    list, final := Sort(heads[0], CmpIdx, null, s, set d | d in datas);
    forall j | 0 <= j < m
      ensures datas[j].item == Numbered(j, m, |heads|, seed)
      ensures IsBuiltItem(datas[j].item, j, m, |heads|, seed)
    {
      NumberedIsBuilt(j, m, |heads|, seed);
      NumberedSettled(j, m, |heads|, seed);
      SettledStays(CmpIdx, null, Numbered(j, m, |heads|, seed), datas[j].item);
    }
    PermutationLength(final, s);
    FirstAndLast(heads, m, |heads|, seed, final);
  }

  lemma BuildOrderElements<T>(heads: seq<T>, m: nat)
    requires 1 <= m <= |heads| && NoDup(heads)
    ensures NoDup(BuildOrder(heads, m)) && multiset(BuildOrder(heads, m)) == multiset(heads[..m])
    ensures forall x :: x in BuildOrder(heads, m) ==> exists j :: 0 <= j < m && heads[j] == x
  {
    var s, t := BuildOrder(heads, m), heads[..m];
    assert forall j :: 0 < j < m ==> t[j] == s[m - j];
    SameElementsPermute(s, t);
  }

  lemma NumberedSettled(j: nat, m: nat, size: nat, seed: bv16)
    ensures Settled(CmpIdx, null, Numbered(j, m, size, seed))
  {
  }

  /** The first header ties at worst with others at position 0, and it came first; nobody
  ties with the sentinel. */
  lemma FirstAndLast(heads: seq<ListHead>, m: nat, size: nat, seed: bv16, final: seq<ListHead>)
    requires 2 <= m <= |heads| && NoDup(heads) && size / 5 <= 0x7fff
    requires forall j :: 0 <= j < m ==> heads[j].info.item == Numbered(j, m, size, seed)
    requires SortedStably(CmpIdx, BuildOrder(heads, m), final) && multiset(final) == multiset(BuildOrder(heads, m))
    requires |final| == m
    ensures final[0] == heads[0] && final[m - 1] == heads[1]
  {
    var s := BuildOrder(heads, m);
    hide Numbered, IndexOf, SortedStably;
    BuildOrderElements(heads, m);
    forall j | 0 <= j < m
      ensures 0 <= heads[j].info.item.idx <= 0x7fff
      ensures j == 0 ==> heads[j].info.item.idx == 0
      ensures heads[j].info.item.idx == 0x7fff <==> j == 1
    {
      NumberedRange(j, m, size, seed);
    }
    FirstStaysFirst(s, final);
    LastStaysLast(s, final);
  }

  lemma FirstStaysFirst(s: seq<ListHead>, final: seq<ListHead>)
    requires SortedStably(CmpIdx, s, final) && multiset(final) == multiset(s) && NoDup(s) && s != []
    requires forall i :: 0 <= i < |s| ==> s[0].info.item.idx <= s[i].info.item.idx
    ensures |final| == |s| && final[0] == s[0]
  {
    PermutationLength(final, s);
    PermutationElements(final, s);
    PermutationElements(s, final);
    IndexOfAt(s, 0);
    hide IndexOf;
    assert s[0] in final && final[0] in s;
    var p :| 0 <= p < |s| && final[p] == s[0];
    if p > 0 {
      assert false;
    }
  }

  lemma LastStaysLast(s: seq<ListHead>, final: seq<ListHead>)
    requires SortedStably(CmpIdx, s, final) && multiset(final) == multiset(s) && s != []
    requires forall i :: 0 <= i < |s| - 1 ==> s[i].info.item.idx < s[|s| - 1].info.item.idx
    ensures |final| == |s| && final[|s| - 1] == s[|s| - 1]
  {
    PermutationLength(final, s);
    PermutationElements(final, s);
    PermutationElements(s, final);
    hide IndexOf;
    var last := |s| - 1;
    assert s[last] in final && final[last] in s;
    var p :| 0 <= p < |s| && final[p] == s[last];
    if p < last {
      assert false;
    }
  }

  lemma NumberedRange(j: nat, m: nat, size: nat, seed: bv16)
    requires j < m && size / 5 <= 0x7fff
    ensures 0 <= Numbered(j, m, size, seed).idx <= 0x7fff
    ensures j == 0 ==> Numbered(j, m, size, seed).idx == 0
    ensures Numbered(j, m, size, seed).idx == 0x7fff <==> j == 1
  {
    hide InitialIdx, InitialData, Word;
    if j >= 2 {
      InitialIdxRange(m - j, size, seed);
    }
  }
}
