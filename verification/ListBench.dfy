/** core_bench_list: find, reverse and relink many times, sort by value, remove and put back,
sort by position. Every call leaves the list as it was if and only if the positions strictly increase. */
module ListBench {
  import opened Crc
  import opened Sequences
  import opened ItemData
  import opened ListHeap
  import opened Comparators
  import opened MergeOrder
  import opened Mergesort

  // ---------- what the find loop computes ----------

  /** Loop state: list order, info.idx, and the three counters. */
  datatype Finds<+T> = Finds(order: seq<T>, idx: int, retval: bv16, found: bv16, missed: bv16)

  /** ee_s16 arithmetic. */
  function WrapS16(x: int): int { (x + 0x8000) % 0x1_0000 - 0x8000 }

  function LowByteOf(i: nat): bv16 { (i % 256) as bv16 }

  function Increment(counter: bv16): bv16 { counter + 1 }

  function NextIdx(idx: int): int { if idx >= 0 then WrapS16(idx + 1) else idx }

  function Bit8(data: bv16): bv16 { (data >> 8) & 1 }

  function Bit9(data: bv16): bv16 { (data >> 9) & 1 }

  function AddMissed(retval: bv16, data: bv16): bv16 { retval + Bit8(data) }

  function AddFound(retval: bv16, data: bv16): bv16 {
    if data & 1 != 0 then retval + Bit9(data) else retval
  }

  function ItemsIn<T>(view: map<T, Item>, order: seq<T>): (items: seq<Item>)
    requires forall n :: n in order ==> n in view
    ensures |items| == |order| && forall i :: 0 <= i < |order| ==> items[i] == view[order[i]]
  {
    seq(|order|, i requires 0 <= i < |order| => assert order[i] in order; view[order[i]])
  }

  /** The order after a round that looked for the item at position k: the list reversed, and
  what follows the item found moved behind the head. */
  function OrderAfterFind<T>(order: seq<T>, k: nat): seq<T>
    requires k <= |order|
  {
    if k == |order| then Reversed(order) else MovedForward(Reversed(order), |order| - 1 - k)
  }

  lemma OrderAfterFindPermutes<T>(order: seq<T>, k: nat)
    requires NoDup(order) && k <= |order|
    ensures NoDup(OrderAfterFind(order, k)) && multiset(OrderAfterFind(order, k)) == multiset(order)
    ensures |OrderAfterFind(order, k)| == |order| && forall x :: x in OrderAfterFind(order, k) ==> x in order
  {
    hide Reversed, MovedForward, NoDup;
    ReversedKeepsElements(order);
    ReversedIsNoDup(order);
    if k < |order| {
      MovedForwardPermutes(Reversed(order), |order| - 1 - k);
    }
    PermutationLength(OrderAfterFind(order, k), order);
    PermutationElements(OrderAfterFind(order, k), order);
  }

  function FindRound<T>(view: map<T, Item>, i: nat, st: Finds<T>): Finds<T>
    requires |st.order| >= 2 && forall n :: n in st.order ==> n in view
  {
    var items := ItemsIn(view, st.order);
    var k := FirstMatch(items, Item(LowByteOf(i), st.idx));
    var order := OrderAfterFind(st.order, k);
    if k == |st.order| then
      // the second of the reversed list
      Finds(order, NextIdx(st.idx), AddMissed(st.retval, items[|items| - 2].data16), st.found, Increment(st.missed))
    else
      Finds(order, NextIdx(st.idx), AddFound(st.retval, items[k].data16), Increment(st.found), st.missed)
  }

  // ---------- a round in its own terms ----------

  /** The item that round i looks for: by position, or by its lower data byte. */
  predicate Sought(item: Item, i: nat, idx: int) {
    if idx >= 0 then item.idx == idx else item.data16 & 0x00ff == (i % 256) as bv16
  }

  /** What a find makes of the order when it meets the item at k, or none for k == |order|: the list reversed, but
  what stood in front of the item found comes second. */
  ghost predicate MovedByFind<T>(order: seq<T>, after: seq<T>, k: nat)
    requires |order| >= 2
  {
    var n := |order|;
    |after| == n && multiset(after) == multiset(order) && after[0] == order[n - 1] &&
    (k == 0 || k == n ==> forall i :: 0 <= i < n ==> after[i] == order[n - 1 - i]) &&
    (0 < k < n ==>
       after[1] == order[k - 1] &&
       forall i, j :: 0 <= i < j < n && i + 1 != k && j + 1 != k ==>
         IndexOf(after, order[j]) < IndexOf(after, order[i]))
  }

  /** A find is counted, with bit 9 of an item whose bit 0 is set; a miss is counted, with bit 8. */
  predicate CountedRound(hit: bool, data: bv16, retval: bv16, found: bv16, missed: bv16,
                         retval': bv16, found': bv16, missed': bv16)
  {
    if hit then
      found' == found + 1 && missed' == missed &&
      retval' == if data & 0x0001 != 0 && data & 0x0200 != 0 then retval + 1 else retval
    else
      found' == found && missed' == missed + 1 && retval' == if data & 0x0100 != 0 then retval + 1 else retval
  }

  /** The position sought goes up by one and wraps as an ee_s16; a negative one stays. */
  predicate NextSought(idx: int, idx': int) {
    if idx < 0 then idx' == idx else idx < 0x8000 ==> idx' == if idx == 0x7fff then -0x8000 else idx + 1
  }

  /** Round i meets the first item sought at k, moves the list, and counts the find with this item, or the miss with
  the second item of the new list. */
  ghost predicate IsRound<T>(view: map<T, Item>, i: nat, st: Finds<T>, st': Finds<T>, k: nat)
    requires |st.order| >= 2 && forall n :: n in st.order ==> n in view
  {
    var n := |st.order|;
    k <= n && (k < n ==> Sought(view[st.order[k]], i, st.idx)) &&
    (forall j :: 0 <= j < k ==> !Sought(view[st.order[j]], i, st.idx)) &&
    MovedByFind(st.order, st'.order, k) && NextSought(st.idx, st'.idx) &&
    CountedRound(k < n, view[st.order[if k < n then k else n - 2]].data16, st.retval, st.found, st.missed,
                 st'.retval, st'.found, st'.missed)
  }

  lemma FoundIsCounted(data: bv16, retval: bv16, found: bv16, missed: bv16)
    ensures CountedRound(true, data, retval, found, missed, AddFound(retval, data), Increment(found), missed)
    ensures CountedRound(false, data, retval, found, missed, AddMissed(retval, data), found, Increment(missed))
  {
    hide AddFound, AddMissed;
    AddFoundIs(retval, data);
    AddMissedIs(retval, data);
  }

  lemma BitIsMask(data: bv16)
    ensures Bit8(data) == if data & 0x0100 != 0 then 1 else 0
    ensures Bit9(data) == if data & 0x0200 != 0 then 1 else 0
  {
  }

  lemma AddFoundIs(retval: bv16, data: bv16)
    ensures AddFound(retval, data) == if data & 0x0001 != 0 && data & 0x0200 != 0 then retval + 1 else retval
  {
    BitIsMask(data);
    hide Bit9;
    if data & 0x0001 != 0 && data & 0x0200 != 0 {
      assert AddFound(retval, data) == retval + 1;
    }
  }

  lemma AddMissedIs(retval: bv16, data: bv16)
    ensures AddMissed(retval, data) == if data & 0x0100 != 0 then retval + 1 else retval
  {
    BitIsMask(data);
    hide Bit8;
    if data & 0x0100 != 0 {
      assert AddMissed(retval, data) == retval + 1;
    }
  }

  lemma NextIdxIsNextSought(idx: int)
    ensures NextSought(idx, NextIdx(idx))
  {
  }

  lemma MatchIsSought(item: Item, i: nat, idx: int)
    ensures Matches(item, Item(LowByteOf(i), idx)) <==> Sought(item, i, idx)
  {
  }

  lemma OrderIsMovedByFind<T>(order: seq<T>, k: nat)
    requires |order| >= 2 && NoDup(order) && k <= |order|
    ensures MovedByFind(order, OrderAfterFind(order, k), k)
  {
    hide Reversed, IndexOf, NoDup;
    var n, r := |order|, Reversed(order);
    OrderAfterFindPermutes(order, k);
    forall i | 0 <= i < n
      ensures r[n - 1 - i] == order[i]
    {
      ReversedAt(order, n - 1 - i);
    }
    if 0 < k < n {
      assert r[n - k] == order[k - 1];
      forall i, j | 0 <= i < j < n && i + 1 != k && j + 1 != k
        ensures IndexOf(OrderAfterFind(order, k), order[j]) < IndexOf(OrderAfterFind(order, k), order[i])
      {
        LaterAfterFind(order, k, i, j);
      }
    }
  }

  /** The specification of a round is such a round. */
  lemma FindRoundIsRound<T>(view: map<T, Item>, i: nat, st: Finds<T>) returns (k: nat)
    requires |st.order| >= 2 && NoDup(st.order) && forall n :: n in st.order ==> n in view
    ensures IsRound(view, i, st, FindRound(view, i, st), k)
  {
    hide Matches, Sought, LowByteOf, AddFound, AddMissed, Increment, NextIdx, NextSought, CountedRound;
    hide OrderAfterFind, MovedByFind, FirstMatch, NoDup;
    var items, target := ItemsIn(view, st.order), Item(LowByteOf(i), st.idx);
    k := FirstMatch(items, target);
    forall j | 0 <= j < |items|
      ensures Matches(items[j], target) <==> Sought(view[st.order[j]], i, st.idx)
    {
      MatchIsSought(items[j], i, st.idx);
    }
    OrderIsMovedByFind(st.order, k);
    FoundIsCounted(items[if k < |items| then k else |items| - 2].data16, st.retval, st.found, st.missed);
    NextIdxIsNextSought(st.idx);
  }

  /** The state after n rounds. */
  function FindRounds<T>(view: map<T, Item>, n: nat, st: Finds<T>): (st': Finds<T>)
    requires |st.order| >= 2 && NoDup(st.order) && forall n :: n in st.order ==> n in view
    ensures NoDup(st'.order) && multiset(st'.order) == multiset(st.order)
    ensures |st'.order| == |st.order| && forall n :: n in st'.order ==> n in view
  {
    if n == 0 then st
    else
      var before := FindRounds(view, n - 1, st);
      OrderAfterFindPermutes(before.order, FirstMatch(ItemsIn(view, before.order), Item(LowByteOf(n - 1), before.idx)));
      FindRound(view, n - 1, before)
  }

  /** The finds are such rounds, one after the other. */
  lemma NextRound<T>(view: map<T, Item>, n: nat, st: Finds<T>) returns (k: nat)
    requires |st.order| >= 2 && NoDup(st.order) && forall x :: x in st.order ==> x in view
    ensures FindRounds(view, 0, st) == st
    ensures IsRound(view, n, FindRounds(view, n, st), FindRounds(view, n + 1, st), k)
  {
    hide IsRound, FindRound;
    k := FindRoundIsRound(view, n, FindRounds(view, n, st));
  }

  /** The snapshot agrees with the heap. */
  ghost predicate Seen(view: map<ListHead, Item>, infos: map<ListHead, ListData>, s: seq<ListHead>)
    reads (set n | n in s)`info, set n | n in s :: n.info
  {
    forall n :: n in s ==> n in view && n in infos && infos[n] == n.info && view[n] == n.info.item
  }

  lemma SeenItems(view: map<ListHead, Item>, infos: map<ListHead, ListData>, s: seq<ListHead>)
    requires Seen(view, infos, s)
    ensures forall n :: n in s ==> n in view
    ensures Items(s) == ItemsIn(view, s)
    ensures forall i :: 0 <= i < |s| ==> s[i].info.item == ItemsIn(view, s)[i]
  {
  }

  method FindOnce(list0: ListHead, i: nat, idx0: int, retval0: bv16, found0: bv16, missed0: bv16,
                  ghost view: map<ListHead, Item>, ghost infos: map<ListHead, ListData>, ghost order: seq<ListHead>)
    returns (list: ListHead, idx: int, retval: bv16, found: bv16, missed: bv16)
    requires IsList(list0, order) && |order| >= 2 && Seen(view, infos, order)
    modifies (set n | n in order)`next
    ensures Seen(view, infos, order)
    ensures var st := FindRound(view, i, Finds(order, idx0, retval0, found0, missed0));
            IsList(list, st.order) && st == Finds(st.order, idx, retval, found, missed)
  {
    hide LowByteOf, Increment, AddMissed, AddFound, WrapS16, FirstMatch, Matches;
    hide NoDup, IsList, Reversed, MovedForward, Seen;
    idx, retval, found, missed := idx0, retval0, found0, missed0;
    var info := Item(LowByteOf(i), idx);
    ghost var k := FirstMatch(Items(order), info);
    ListFront(list0, order);
    SeenItems(view, infos, order);
    var this_find := Find(list0, info, order);
    var reversed := Reverse(list0, order);
    ghost var rev := Reversed(order);
    OrderAfterFindPermutes(order, k);
    OrderAfterFindPermutes(order, |order|);
    ListFront(reversed, rev);
    ReversedAt(order, 1);
    list := reversed;
    if this_find == null {
      missed := Increment(missed);
      assert list.next == order[|order| - 2];
      retval := AddMissed(retval, list.next.info.item.data16);
    } else {
      found := Increment(found);
      retval := AddFound(retval, this_find.info.item.data16);
      ReversedAt(order, |order| - 1 - k);
      MoveNextForward(list, this_find, rev, |order| - 1 - k);
    }
    if info.idx >= 0 {
      idx := WrapS16(idx + 1);
    }
  }

  /** One round: the first item sought, the list moved, and the counters, as IsRound says; and so as FindRound says. */
  method OneFind(list0: ListHead, i: nat, idx0: int, retval0: bv16, found0: bv16, missed0: bv16,
                 ghost view: map<ListHead, Item>, ghost infos: map<ListHead, ListData>, ghost order: seq<ListHead>)
    returns (list: ListHead, idx: int, retval: bv16, found: bv16, missed: bv16, ghost after: seq<ListHead>,
             ghost k: nat)
    requires IsList(list0, order) && |order| >= 2 && Seen(view, infos, order)
    modifies (set n | n in order)`next
    ensures Seen(view, infos, order) && (forall n :: n in order ==> n in view) && IsList(list, after)
    ensures IsRound(view, i, Finds(order, idx0, retval0, found0, missed0), Finds(after, idx, retval, found, missed), k)
    ensures Finds(after, idx, retval, found, missed) ==
            FindRound(view, i, Finds(order, idx0, retval0, found0, missed0))
  {
    hide IsList, Seen, IsRound, FindRound;
    ghost var st := Finds(order, idx0, retval0, found0, missed0);
    ListFront(list0, order);
    SeenItems(view, infos, order);
    list, idx, retval, found, missed := FindOnce(list0, i, idx0, retval0, found0, missed0, view, infos, order);
    after := FindRound(view, i, st).order;
    k := FindRoundIsRound(view, i, st);
  }

  /** The find loop: lines 144-169. */
  method FindMany(list0: ListHead, find_num: int, finder_idx: int,
                  ghost view: map<ListHead, Item>, ghost infos: map<ListHead, ListData>, ghost s: seq<ListHead>)
    returns (list: ListHead, idx: int, retval: bv16, found: bv16, missed: bv16, ghost order: seq<ListHead>)
    requires IsList(list0, s) && |s| >= 2 && Seen(view, infos, s)
    modifies (set n | n in s)`next
    ensures NoDup(s) && forall n :: n in s ==> n in view
    ensures Finds(order, idx, retval, found, missed) ==
            FindRounds(view, if find_num < 0 then 0 else find_num, Finds(s, finder_idx, 0, 0, 0))
    ensures IsList(list, order) && Seen(view, infos, order) && multiset(order) == multiset(s)
  {
    hide Seen, IsList, FindRound, IsRound;
    SeenItems(view, infos, s);
    ListFront(list0, s);
    list, idx, retval, found, missed, order := list0, finder_idx, 0, 0, 0, s;
    var i: nat := 0;
    while i < find_num
      invariant i <= if find_num < 0 then 0 else find_num
      invariant Finds(order, idx, retval, found, missed) == FindRounds(view, i, Finds(s, finder_idx, 0, 0, 0))
      invariant IsList(list, order) && Seen(view, infos, order) && multiset(order) == multiset(s) && |order| == |s|
    {
      ghost var st := Finds(order, idx, retval, found, missed);
      PermutationElements(order, s);
      PermutationElements(s, order);
      ghost var after, k;
      list, idx, retval, found, missed, after, k := OneFind(list, i, idx, retval, found, missed, view, infos, order);
      ghost var st' := FindRound(view, i, st);
      assert FindRounds(view, i + 1, Finds(s, finder_idx, 0, 0, 0)) == st';
      PermutationElements(st'.order, order);
      SeenPermuted(view, infos, order, st'.order);
      order := st'.order;
      i := i + 1;
    }
  }

  lemma SeenPermuted(view: map<ListHead, Item>, infos: map<ListHead, ListData>, s: seq<ListHead>, t: seq<ListHead>)
    requires Seen(view, infos, s) && forall n :: n in t ==> n in s
    ensures Seen(view, infos, t)
  {
  }

  // ---------- remove an item, walk, put it back ----------

  function CrcRepeated(data: bv16, n: nat, crc: bv16): bv16 {
    if n == 0 then crc else CrcRepeated(data, n - 1, CrcOfWord(data, crc))
  }

  /** The CRC of the head's data, once for every header from finder on. */
  method CrcWalk(list: ListHead, finder0: ListHead?, retval0: bv16, ghost s: seq<ListHead>, ghost data: bv16)
    returns (retval: bv16)
    requires IsList(finder0, s) && data == list.info.item.data16
    ensures retval == CrcRepeated(data, |s|, retval0)
  {
    hide CrcOfWord;
    var finder := finder0;
    retval := retval0;
    ghost var rest := s;
    while finder != null
      invariant IsList(finder, rest)
      invariant CrcRepeated(data, |rest|, retval) == CrcRepeated(data, |s|, retval0)
      decreases |rest|
    {
      retval := Crcu16(list.info.item.data16, retval);
      ListRest(finder, rest, 1);
      finder := finder.next;
      rest := rest[1..];
    }
  }

  lemma ListRest(list: ListHead?, s: seq<ListHead>, k: nat)
    requires IsList(list, s) && k <= |s|
    ensures IsList(First(s[k..]), s[k..])
    ensures k == 1 && list != null ==> list.next == First(s[1..])
  {
  }

  /** The list without its second item. */
  function WithoutSecond<T>(items: seq<T>): seq<T>
    requires |items| >= 2
  {
    items[..1] + items[2..]
  }

  /** How many headers the walk visits: from the item looked for, or else from the second. */
  function WalkLength(items: seq<Item>, target: Item): nat
    requires |items| >= 2
  {
    var k := FirstMatch(items, target);
    if k < |items| then |items| - k else |items| - 1
  }

  method FindAndWalk(list: ListHead, info: Item, retval0: bv16, ghost s: seq<ListHead>, ghost items: seq<Item>)
    returns (retval: bv16)
    requires IsList(list, s) && |s| >= 2 && items == Items(s)
    ensures retval == CrcRepeated(items[0].data16, WalkLength(items, info), retval0)
  {
    hide IsList, FirstMatch, CrcRepeated;
    ListFront(list, s);
    var finder := Find(list, info, s);
    ghost var k := FirstMatch(Items(s), info);
    if finder == null {
      finder := list.next;
      k := 1;
    }
    ListRest(list, s, k);
    retval := CrcWalk(list, finder, retval0, s[k..], items[0].data16);
  }

  method RemoveWalkRestore(list: ListHead, info: Item, retval0: bv16, ghost s: seq<ListHead>) returns (retval: bv16)
    requires IsList(list, s) && |s| >= 3
    modifies set n | n in s
    ensures IsList(list, s) && forall n :: n in s ==> n.info == old(n.info)
    ensures var items := old(Items(s));
            retval == CrcRepeated(items[0].data16, WalkLength(WithoutSecond(items), info), retval0)
  {
    hide IsList, FirstMatch, CrcRepeated, WalkLength;
    ListFront(list, s);
    ghost var items := Items(s);
    ghost var rest := s[..2] + s[3..];
    var remover := Remove(list.next, list, s, 1);
    ItemsAfterRemove(items, s);
    ListFront(list, rest);
    retval := FindAndWalk(list, info, retval0, rest, WithoutSecond(items));
    ListFront(list, rest);
    remover := UndoRemove(remover, list.next, list, s, 1);
  }

  /** Removing the second item by unlinking the third header leaves the other items in order. */
  lemma ItemsAfterRemove(items: seq<Item>, s: seq<ListHead>)
    requires |items| == |s| >= 3 && s[1].info.item == items[2]
    requires forall i :: 0 <= i < |s| && i != 1 && i != 2 ==> s[i].info.item == items[i]
    ensures Items(s[..2] + s[3..]) == WithoutSecond(items)
  {
  }

  // ---------- the whole benchmark ----------

  function FindTotal(retval: bv16, found: bv16, missed: bv16): bv16 { retval + (found * 4 - missed) }

  ghost function ViewOf(s: seq<ListHead>): (view: map<ListHead, Item>)
    reads (set n | n in s)`info, set n | n in s :: n.info
    ensures view.Keys == set n | n in s
    ensures forall n :: n in s ==> view[n] == n.info.item
  {
    map n | n in s :: n.info.item
  }

  ghost function InfosOf(s: seq<ListHead>): (infos: map<ListHead, ListData>)
    reads (set n | n in s)`info
    ensures infos.Keys == set n | n in s
    ensures forall n :: n in s ==> infos[n] == n.info
  {
    map n | n in s :: n.info
  }

  /** The value sort, which the benchmark runs only for a positive finder_idx. */
  method SortByValue(list0: ListHead, finder_idx: int, res: CoreResults, ghost order: seq<ListHead>,
                     ghost items: set<ListData>)
    returns (list: ListHead, ghost mid: seq<ListHead>)
    requires IsList(list0, order) && 2 <= |order| <= MAX_S32 && forall n :: n in order ==> n.info in items
    modifies (set n | n in order)`next, items, res
    ensures IsList(list, mid) && multiset(mid) == multiset(order)
    ensures finder_idx > 0 ==> SortedStably(CmpComplex, order, mid) && AllSettled(CmpComplex, res, mid)
    ensures finder_idx <= 0 ==> mid == order && forall d :: d in items ==> d.item == old(d.item)
    ensures forall d :: d in items ==> Evolves(CmpComplex, res, old(d.item), d.item)
  {
    hide Evolves, IsList, SortedStably, AllSettled;
    EvolvesReflexive(CmpComplex, res);
    list, mid := list0, order;
    if finder_idx > 0 {
      var head;
      head, mid := Sort(list0, CmpComplex, res, order, items);
      PermutationLength(mid, order);
      ListFront(head, mid);
      list := head;
    }
  }

  ghost predicate StrictlyByIdx(view: map<ListHead, Item>, s: seq<ListHead>) {
    (forall n :: n in s ==> n in view) &&
    forall i, j :: 0 <= i < j < |s| ==> view[s[i]].idx < view[s[j]].idx
  }

  /** Sorted by the cached values, ties in the order before. */
  ghost predicate ByValue<T>(order: seq<T>, mid: seq<T>, midItems: seq<Item>)
    requires |midItems| == |mid|
  {
    (forall i :: 0 <= i < |mid| ==> Cached(midItems[i].data16)) &&
    forall i, j :: 0 <= i < j < |mid| ==>
      var x, y := AsInt(Value(midItems[i].data16)), AsInt(Value(midItems[j].data16));
      x < y || (x == y && IndexOf(order, mid[i]) < IndexOf(order, mid[j]))
  }

  lemma SortedIsByValue(res: CoreResults, order: seq<ListHead>, mid: seq<ListHead>, midItems: seq<Item>)
    requires SortedStably(CmpComplex, order, mid) && AllSettled(CmpComplex, res, mid) && midItems == Items(mid)
    ensures ByValue(order, mid, midItems)
  {
  }

  /** The result: what the finds counted, then a walk over the list without its second item,
  then one over the restored list, each adding its head's data again and again. */
  function BenchCrc(st: Finds<ListHead>, midItems: seq<Item>, target: Item, finalData: bv16): bv16
    requires |midItems| >= 3
  {
    var walked := CrcRepeated(midItems[0].data16, WalkLength(WithoutSecond(midItems), target),
                              FindTotal(st.retval, st.found, st.missed));
    CrcRepeated(finalData, |midItems| - 1, walked)
  }

  /** What info holds after the loop; with no rounds its data bits are whatever they were. */
  function LastTarget(find_num: int, idx: int, uninitialised: bv16): Item {
    Item(if find_num <= 0 then uninitialised else LowByteOf(find_num - 1), idx)
  }

  function Rounds(find_num: int): nat { if find_num < 0 then 0 else find_num }

  /** The result in its own terms: the CRC of the head's data, once for each header from the first one sought on, or
  else from the second on, in the list without its second item; then of the final head's data, once for each header
  but the head; all starting from what the finds counted. */
  lemma BenchCrcIs(st: Finds<ListHead>, midItems: seq<Item>, find_num: int, uninitialised: bv16, finalData: bv16)
    returns (k: nat)
    requires |midItems| >= 3 && find_num > 0
    ensures var n, left := |midItems|, [midItems[0]] + midItems[2..];
            k <= n - 1 && (k < n - 1 ==> Sought(left[k], find_num - 1, st.idx)) &&
            (forall j :: 0 <= j < k ==> !Sought(left[j], find_num - 1, st.idx)) &&
            BenchCrc(st, midItems, LastTarget(find_num, st.idx, uninitialised), finalData) ==
            CrcOfWords(Times(midItems[0].data16, if k < n - 1 then n - 1 - k else n - 2) + Times(finalData, n - 1),
                       Counted(st.retval, st.found, st.missed))
  {
    hide Matches, Sought, LowByteOf, CrcRepeated, CrcOfWords, FirstMatch, FindTotal, Counted, Times;
    var n, left := |midItems|, [midItems[0]] + midItems[2..];
    var target := LastTarget(find_num, st.idx, uninitialised);
    assert left == WithoutSecond(midItems);
    k := FirstMatch(left, target);
    forall j | 0 <= j < |left|
      ensures Matches(left[j], target) <==> Sought(left[j], find_num - 1, st.idx)
    {
      MatchIsSought(left[j], find_num - 1, st.idx);
    }
    FindTotalIs(st.retval, st.found, st.missed);
    var m := if k < n - 1 then n - 1 - k else n - 2;
    var total := FindTotal(st.retval, st.found, st.missed);
    CrcRepeatedIs(midItems[0].data16, m, total);
    CrcRepeatedIs(finalData, n - 1, CrcRepeated(midItems[0].data16, m, total));
    CrcOfWordsConcat(Times(midItems[0].data16, m), Times(finalData, n - 1), total);
  }

  /** Four for each find, minus one for each miss, added to the bits collected. */
  function Counted(retval: bv16, found: bv16, missed: bv16): bv16 {
    retval + found + found + found + found - missed
  }

  function Times(data: bv16, n: nat): seq<bv16> { seq(n, _ => data) }

  lemma FindTotalIs(retval: bv16, found: bv16, missed: bv16)
    ensures FindTotal(retval, found, missed) == Counted(retval, found, missed)
  {
  }

  lemma {:induction false} CrcRepeatedIs(data: bv16, n: nat, crc: bv16)
    ensures CrcRepeated(data, n, crc) == CrcOfWords(Times(data, n), crc)
    decreases n
  {
    hide CrcOfWord;
    if n > 0 {
      CrcRepeatedIs(data, n - 1, CrcOfWord(data, crc));
      assert Times(data, n)[1..] == Times(data, n - 1);
    }
  }

  lemma {:induction false} CrcOfWordsConcat(a: seq<bv16>, b: seq<bv16>, crc: bv16)
    ensures CrcOfWords(a + b, crc) == CrcOfWords(b, CrcOfWords(a, crc))
    decreases |a|
  {
    hide CrcOfWord;
    if a == [] {
      assert a + b == b;
    } else {
      assert (a + b)[1..] == a[1..] + b;
      CrcOfWordsConcat(a[1..], b, CrcOfWord(a[0], crc));
    }
  }

  /** The finds and the value sort. */
  method FindAndSort(res: CoreResults, finder_idx: int, ghost view: map<ListHead, Item>,
                     ghost s: seq<ListHead>, ghost items: set<ListData>)
    returns (list: ListHead, idx: int, retval: bv16, ghost mid: seq<ListHead>, ghost midItems: seq<Item>)
    requires IsList(res.list, s) && 3 <= |s| <= MAX_S32 && forall n :: n in s ==> n.info in items
    requires view == ViewOf(s)
    modifies (set n | n in s)`next, items, res
    ensures IsList(list, mid) && multiset(mid) == multiset(s) && midItems == Items(mid)
    ensures forall d :: d in items ==> Evolves(CmpComplex, res, old(d.item), d.item)
    ensures NoDup(s) && forall n :: n in s ==> n in view
    ensures var st := FindRounds(view, Rounds(res.seed3), Finds(s, finder_idx, 0, 0, 0));
      && idx == st.idx && retval == FindTotal(st.retval, st.found, st.missed)
      && (finder_idx <= 0 ==> mid == st.order && forall d :: d in items ==> d.item == old(d.item))
      && (finder_idx > 0 ==> ByValue(st.order, mid, midItems))
  {
    hide FindRounds, FindTotal, IsList, Evolves, Seen, SortedStably, AllSettled, ByValue;
    ghost var infos := InfosOf(s);
    SeenNow(view, infos, s);
    var found, missed;
    ghost var order;
    list, idx, retval, found, missed, order := FindMany(res.list, res.seed3, finder_idx, view, infos, s);
    SamePermutation(order, s);
    SeenItems(view, infos, order);
    retval := FindTotal(retval, found, missed);
    list, mid := SortByValue(list, finder_idx, res, order, items);
    midItems := Items(mid);
    if finder_idx > 0 {
      SortedIsByValue(res, order, mid, midItems);
    }
  }

  /** The first half: everything up to and including the undone removal. */
  method FindSortRemove(res: CoreResults, finder_idx: int, uninitialised: bv16, ghost view: map<ListHead, Item>,
                        ghost s: seq<ListHead>, ghost items: set<ListData>)
    returns (list: ListHead, retval: bv16, ghost mid: seq<ListHead>, ghost midItems: seq<Item>)
    requires IsList(res.list, s) && 3 <= |s| <= MAX_S32 && forall n :: n in s ==> n.info in items
    requires view == ViewOf(s)
    modifies (set n | n in s), items, res
    ensures IsList(list, mid) && multiset(mid) == multiset(s)
    ensures forall n :: n in s ==> n.info == old(n.info)
    ensures |midItems| == |mid| == |s| && forall i :: 0 <= i < |mid| ==> midItems[i] == mid[i].info.item
    ensures forall d :: d in items ==> Evolves(CmpComplex, res, old(d.item), d.item)
    ensures NoDup(s) && forall n :: n in s ==> n in view
    ensures var st := FindRounds(view, Rounds(res.seed3), Finds(s, finder_idx, 0, 0, 0));
      && retval == CrcRepeated(midItems[0].data16,
                               WalkLength(WithoutSecond(midItems), LastTarget(res.seed3, st.idx, uninitialised)),
                               FindTotal(st.retval, st.found, st.missed))
      && (finder_idx <= 0 ==> mid == st.order && forall d :: d in items ==> d.item == old(d.item))
      && (finder_idx > 0 ==> ByValue(st.order, mid, midItems))
  {
    hide FindRounds, FindTotal, IsList, Evolves, LastTarget, CrcRepeated, WalkLength, ByValue, WithoutSecond;
    var idx;
    list, idx, retval, mid, midItems := FindAndSort(res, finder_idx, view, s, items);
    SamePermutation(mid, s);
    var info := LastTarget(res.seed3, idx, uninitialised);
    retval := RemoveWalkRestore(list, info, retval, mid);
  }

  /** The second half: back to the order of positions, and one more walk. */
  method SortByIdxAndWalk(list: ListHead, retval0: bv16, ghost mid: seq<ListHead>, ghost items: set<ListData>)
    returns (retval: bv16, ghost head: ListHead?, ghost final: seq<ListHead>)
    requires IsList(list, mid) && 2 <= |mid| <= MAX_S32 && forall n :: n in mid ==> n.info in items
    modifies (set n | n in mid)`next, items
    ensures IsList(head, final) && multiset(final) == multiset(mid) && |final| == |mid|
    ensures SortedStably(CmpIdx, mid, final) && AllSettled(CmpIdx, null, final)
    ensures forall d :: d in items ==> Evolves(CmpIdx, null, old(d.item), d.item)
    ensures retval == CrcRepeated(final[0].info.item.data16, |mid| - 1, retval0)
  {
    hide IsList, Evolves, CrcRepeated, SortedStably, AllSettled;
    var sorted;
    sorted, final := Sort(list, CmpIdx, null, mid, items);
    PermutationLength(final, mid);
    head := sorted;
    ListFront(sorted, final);
    ListRest(sorted, final, 1);
    ghost var data := final[0].info.item.data16;
    retval := CrcWalk(sorted, sorted.next, retval0, final[1..], data);
  }

  method BenchList(res: CoreResults, finder_idx: int, uninitialised: bv16,
                   ghost s: seq<ListHead>, ghost items: set<ListData>)
    returns (retval: bv16, ghost head: ListHead?, ghost mid: seq<ListHead>, ghost midItems: seq<Item>,
             ghost final: seq<ListHead>)
    requires IsList(res.list, s) && 3 <= |s| <= MAX_S32 && forall n :: n in s ==> n.info in items
    modifies (set n | n in s), items, res
    ensures IsList(head, final) && multiset(final) == multiset(s)
    ensures forall n :: n in s ==> n.info == old(n.info)
    ensures forall n :: n in s ==> n.info.item == Item(Regenerate(old(n.info.item.data16)), old(n.info.item.idx))
    ensures SortedStably(CmpIdx, mid, final)
    ensures StrictlyByIdx(old(ViewOf(s)), s) ==> final == s
    ensures final == s <==> InOrder(Positions(old(ViewOf(s))), mid, s)
    ensures final == s ==> head == res.list
    ensures NoDup(s) && multiset(mid) == multiset(s) && |midItems| == |mid| == |s| == |final|
    ensures finder_idx <= 0 ==>
              (final == s <==> RestoredAfter(old(ViewOf(s)), s, Rounds(res.seed3), finder_idx))
    ensures var view := old(ViewOf(s));
      var st := FindRounds(view, Rounds(res.seed3), Finds(s, finder_idx, 0, 0, 0));
      && (finder_idx <= 0 ==> mid == st.order && midItems == ItemsIn(view, mid))
      && (finder_idx > 0 ==> ByValue(st.order, mid, midItems))
      && retval == BenchCrc(st, midItems, LastTarget(res.seed3, st.idx, uninitialised), final[0].info.item.data16)
  {
    hide FindRounds, FindTotal, IsList, Evolves, LastTarget, CrcRepeated, WalkLength, ByValue, WithoutSecond,
         SortedStably, AllSettled, Settled, Regenerate, StrictlyByIdx, InOrder, Positions;
    ghost var view := ViewOf(s);
    ListFront(res.list, s);
    var list;
    list, retval, mid, midItems := FindSortRemove(res, finder_idx, uninitialised, view, s, items);
    SamePermutation(mid, s);
    if finder_idx <= 0 {
      assert midItems == ItemsIn(view, mid);
    }
    hide ItemsIn;
    label L:
    ghost var walked := retval;
    retval, head, final := SortByIdxAndWalk(list, retval, mid, items);
    assert retval == CrcRepeated(final[0].info.item.data16, |midItems| - 1, walked);
    SamePermutation(final, s);
    ListFront(head, final);
    forall n | n in s
      ensures n.info.item == Item(Regenerate(view[n].data16), view[n].idx)
    {
      SettledInList(final, n);
      ItemRestored(res, view[n], old@L(n.info.item), n.info.item);
    }
    RestoredOrder(view, mid, final, s);
    StrictIsInOrder(view, mid, s);
  }

  lemma SettledInList(s: seq<ListHead>, n: ListHead)
    requires AllSettled(CmpIdx, null, s) && n in s
    ensures Settled(CmpIdx, null, n.info.item)
  {
  }

  function Positions<T>(view: map<T, Item>): map<T, int> {
    map n | n in view :: view[n].idx
  }

  /** Whether a call without the value sort restores the order of s, as far as its caller can tell beforehand: s is
  sorted by position, equal positions in the order that the finds leave. */
  ghost predicate RestoredAfter<T>(view: map<T, Item>, s: seq<T>, rounds: nat, idx: int)
    requires |s| >= 2 && NoDup(s) && forall n :: n in s ==> n in view
  {
    InOrder(Positions(view), FindRounds(view, rounds, Finds(s, idx, 0, 0, 0)).order, s)
  }

  /** The order is restored exactly when it was sorted by position, with equal positions in
  the order that the first half of the benchmark leaves. */
  lemma RestoredOrder(view: map<ListHead, Item>, mid: seq<ListHead>, final: seq<ListHead>, s: seq<ListHead>)
    requires SortedStably(CmpIdx, mid, final) && multiset(final) == multiset(s)
    requires forall n :: n in s ==> n in view && n.info.item.idx == view[n].idx
    ensures final == s <==> InOrder(Positions(view), mid, s)
  {
    SamePermutation(final, s);
    hide IndexOf;
    assert InOrder(Positions(view), mid, final);
    if InOrder(Positions(view), mid, s) {
      OrderUnique(Positions(view), mid, final, s);
    }
  }

  lemma StrictIsInOrder(view: map<ListHead, Item>, mid: seq<ListHead>, s: seq<ListHead>)
    ensures StrictlyByIdx(view, s) ==> InOrder(Positions(view), mid, s)
  {
  }

  /** One find, for position 0, takes equal positions out of order. */
  lemma OneFindShowsTies<T>(view: map<T, Item>, s: seq<T>)
    requires |s| >= 2 && NoDup(s) && forall n :: n in s ==> n in view
    ensures RestoredAfter(view, s, 1, 0) ==> forall i, j :: 0 <= i < j < |s| ==> view[s[i]].idx < view[s[j]].idx
  {
    hide FirstMatch, OrderAfterFind, IndexOf, NoDup, Matches, LowByteOf;
    var st := Finds(s, 0, 0, 0, 0);
    var items, target := ItemsIn(view, s), Item(LowByteOf(0), 0);
    var k := FirstMatch(items, target);
    var order := FindRounds(view, 1, st).order;
    assert FindRounds(view, 1, st) == FindRound(view, 0, FindRounds(view, 0, st));
    assert order == OrderAfterFind(s, k);
    if RestoredAfter(view, s, 1, 0) {
      forall i, j | 0 <= i < j < |s|
        ensures view[s[i]].idx < view[s[j]].idx
      {
        assert Before(Positions(view), order, s[i], s[j]);
        if i + 1 == k < |s| && view[s[i]].idx == view[s[j]].idx {
          assert i + 1 == j || Before(Positions(view), order, s[i + 1], s[j]);
          assert Before(Positions(view), order, s[i], s[i + 1]);
          FoundByIdx(items[k], target);
          FoundByIdx(items[i], target);
          assert false;
        } else if view[s[i]].idx == view[s[j]].idx {
          LaterAfterFind(s, k, i, j);
          assert false;
        }
      }
    }
  }

  lemma FoundByIdx(item: Item, target: Item)
    requires target.idx >= 0
    ensures Matches(item, target) <==> item.idx == target.idx
  {
  }

  /** A find reverses the order of any two headers, but for the one in front of the header found. */
  lemma LaterAfterFind<T>(s: seq<T>, k: nat, i: nat, j: nat)
    requires NoDup(s) && k <= |s| && i < j < |s| && (i + 1 != k || k == |s|)
    ensures IndexOf(OrderAfterFind(s, k), s[j]) < IndexOf(OrderAfterFind(s, k), s[i])
  {
    hide Reversed, IndexOf, NoDup;
    var n, r, order := |s|, Reversed(s), OrderAfterFind(s, k);
    OrderAfterFindPermutes(s, k);
    forall x | 0 <= x < n {
      ReversedAt(s, x);
    }
    assert r[n - 1 - i] == s[i] && r[n - 1 - j] == s[j];
    IndexOfAt(order, PlaceAfterFind(n, k, i));
    IndexOfAt(order, PlaceAfterFind(n, k, j));
  }

  /** Where a find moves the header at x. */
  function PlaceAfterFind(n: nat, k: nat, x: nat): nat
    requires x < n
  {
    var y := n - 1 - x;
    if k == 0 || k >= n - 1 then y else if x + 1 == k then 1 else if 1 <= y < n - k then y + 1 else y
  }

  /** Every call restores the order if and only if the positions strictly increase. */
  lemma EveryCallRestores(view: map<ListHead, Item>, s: seq<ListHead>)
    requires |s| >= 2 && NoDup(s) && forall n :: n in s ==> n in view
    ensures (forall rounds: nat, idx :: idx <= 0 ==> RestoredAfter(view, s, rounds, idx)) <==> StrictlyByIdx(view, s)
  {
    hide FindRounds;
    OneFindShowsTies(view, s);
    forall rounds: nat, idx: int {
      StrictIsInOrder(view, FindRounds(view, rounds, Finds(s, idx, 0, 0, 0)).order, s);
    }
  }

  lemma SamePermutation<T>(t: seq<T>, s: seq<T>)
    requires multiset(t) == multiset(s)
    ensures |t| == |s| && (forall x :: x in t ==> x in s) && (forall x :: x in s ==> x in t)
  {
    PermutationLength(t, s);
    PermutationElements(t, s);
    PermutationElements(s, t);
  }

  lemma SeenNow(view: map<ListHead, Item>, infos: map<ListHead, ListData>, s: seq<ListHead>)
    requires view == ViewOf(s) && infos == InfosOf(s)
    ensures Seen(view, infos, s)
  {
  }

  lemma ItemRestored(res: CoreResults, before: Item, cached: Item, after: Item)
    requires Evolves(CmpComplex, res, before, cached) && Evolves(CmpIdx, null, cached, after)
    requires Settled(CmpIdx, null, after)
    ensures after == Item(Regenerate(before.data16), before.idx)
  {
  }
}
