/** The linked list of core_list_join.c: headers, items, and the operations that relink them. */
module ListHeap {
  import opened Sequences
  import opened ItemData

  /** The contents of a list_data: data and original position. */
  datatype Item = Item(data16: bv16, idx: int)

  /** A list_data in memory. */
  class ListData {
    var item: Item
  }

  class ListHead {
    var next: ListHead?
    var info: ListData

    constructor (d: ListData)
      ensures next == null && info == d
    {
      next, info := null, d;
    }
  }

  function First(s: seq<ListHead>): ListHead? {
    if s == [] then null else s[0]
  }

  /** Each header of s points to the one after it. */
  ghost predicate Linked(s: seq<ListHead>)
    reads s
  {
    forall i {:trigger s[i].next} :: 0 <= i < |s| - 1 ==> s[i].next == s[i + 1]
  }

  /** s is the null-terminated chain of distinct headers that starts at list. */
  ghost predicate IsList(list: ListHead?, s: seq<ListHead>)
    reads s
  {
    NoDup(s) && Linked(s) && list == First(s) && (s != [] ==> s[|s| - 1].next == null)
  }

  lemma ListFront(list: ListHead?, s: seq<ListHead>)
    requires IsList(list, s)
    ensures NoDup(s) && (list == null <==> s == []) && (s != [] ==> list == s[0])
    ensures |s| >= 2 ==> list.next == s[1]
    ensures |s| == 1 ==> list.next == null
  {
  }

  ghost function Items(s: seq<ListHead>): (items: seq<Item>)
    reads s, set i | 0 <= i < |s| :: s[i].info
    ensures |items| == |s|
    ensures forall i :: 0 <= i < |s| ==> items[i] == s[i].info.item
  {
    seq(|s|, i requires 0 <= i < |s| reads s, set i | 0 <= i < |s| :: s[i].info => s[i].info.item)
  }

  // ---------- find ----------

  /** An item is looked up by position, or by its lower data byte when the position is negative. */
  predicate Matches(item: Item, target: Item) {
    if target.idx >= 0 then item.idx == target.idx else item.data16 & 0x00ff == target.data16
  }

  function FirstMatch(items: seq<Item>, target: Item): (k: nat)
    ensures k <= |items|
    ensures k < |items| ==> Matches(items[k], target)
    ensures forall i :: 0 <= i < k ==> !Matches(items[i], target)
  {
    if items == [] || Matches(items[0], target) then 0 else 1 + FirstMatch(items[1..], target)
  }

  lemma FirstMatchUnique(items: seq<Item>, target: Item, k: nat)
    requires k <= |items|
    requires k < |items| ==> Matches(items[k], target)
    requires forall i :: 0 <= i < k ==> !Matches(items[i], target)
    ensures FirstMatch(items, target) == k
  {
  }

  method Find(list0: ListHead?, info: Item, ghost s: seq<ListHead>) returns (list: ListHead?)
    requires IsList(list0, s)
    ensures list == First(s[FirstMatch(Items(s), info)..])
  {
    hide Matches, FirstMatch;
    list := list0;
    ghost var k := 0;
    if info.idx >= 0 {
      while list != null && list.info.item.idx != info.idx
        invariant k <= |s| && list == First(s[k..])
        invariant forall i :: 0 <= i < k ==> !Matches(s[i].info.item, info)
        decreases |s| - k
      {
        NoMatchByIdx(list.info.item, info);
        list, k := list.next, k + 1;
      }
      if k < |s| { MatchByIdx(list.info.item, info); }
    } else {
      while list != null && list.info.item.data16 & 0x00ff != info.data16
        invariant k <= |s| && list == First(s[k..])
        invariant forall i :: 0 <= i < k ==> !Matches(s[i].info.item, info)
        decreases |s| - k
      {
        NoMatchByData(list.info.item, info);
        list, k := list.next, k + 1;
      }
      if k < |s| { MatchByData(list.info.item, info); }
    }
    FirstMatchUnique(Items(s), info, k);
  }

  lemma NoMatchByIdx(item: Item, target: Item)
    requires target.idx >= 0 && item.idx != target.idx
    ensures !Matches(item, target)
  {
  }

  lemma MatchByIdx(item: Item, target: Item)
    requires target.idx >= 0 && item.idx == target.idx
    ensures Matches(item, target)
  {
  }

  lemma NoMatchByData(item: Item, target: Item)
    requires target.idx < 0 && item.data16 & 0x00ff != target.data16
    ensures !Matches(item, target)
  {
  }

  lemma MatchByData(item: Item, target: Item)
    requires target.idx < 0 && item.data16 & 0x00ff == target.data16
    ensures Matches(item, target)
  {
  }

  // ---------- reverse ----------

  method Reverse(list0: ListHead?, ghost s: seq<ListHead>) returns (next: ListHead?)
    requires IsList(list0, s)
    modifies (set n | n in s)`next
    ensures IsList(next, Reversed(s))
  {
    var list := list0;
    next := null;
    ghost var k := 0;
    while list != null
      invariant k <= |s| && list == First(s[k..])
      invariant forall i {:trigger s[i].next} :: k <= i < |s| - 1 ==> s[i].next == s[i + 1]
      invariant k < |s| ==> s[|s| - 1].next == null
      invariant forall i {:trigger s[i].next} :: 0 < i < k ==> s[i].next == s[i - 1]
      invariant 0 < k ==> s[0].next == null
      invariant next == if k == 0 then null else s[k - 1]
      decreases |s| - k
    {
      var tmp := list.next;
      list.next := next;
      next := list;
      list := tmp;
      k := k + 1;
    }
    ReversedIsNoDup(s);
    ghost var r := Reversed(s);
    forall i | 0 <= i < |r|
      ensures r[i] == s[|s| - 1 - i]
    {
      ReversedAt(s, i);
    }
  }

  lemma ReversedIsNoDup<T>(s: seq<T>)
    requires NoDup(s)
    ensures NoDup(Reversed(s))
  {
    forall i, j | 0 <= i < j < |s|
      ensures Reversed(s)[i] != Reversed(s)[j]
    {
      ReversedAt(s, i);
      ReversedAt(s, j);
    }
  }

  // ---------- moving a successor to the front, removing, and undoing a removal ----------

  /** The header after position k has become the second of the list. */
  function MovedForward<T>(s: seq<T>, k: nat): seq<T>
    requires k < |s|
  {
    if k == 0 || k + 1 == |s| then s else [s[0], s[k + 1]] + s[1..k + 1] + s[k + 2..]
  }

  method MoveNextForward(list: ListHead, this_find: ListHead, ghost s: seq<ListHead>, ghost k: nat)
    requires IsList(list, s) && k < |s| && this_find == s[k]
    modifies (set n | n in s)`next
    ensures IsList(list, MovedForward(s, k))
  {
    ghost var after := if k + 2 < |s| then s[k + 2] else null;
    MovedForwardPermutes(s, k);
    if this_find.next != null {
      assert k + 1 < |s|;
      var finder := this_find.next;
      assert finder == s[k + 1] && finder.next == after;
      this_find.next := finder.next;
      finder.next := list.next;
      list.next := finder;
      assert s[0].next == s[k + 1] && s[k + 1].next == if k == 0 then after else s[1];
      assert k > 0 ==> s[k].next == after;
      assert forall i :: 0 < i < |s| - 1 && i != k && i != k + 1 ==> s[i].next == s[i + 1];
    }
    MovedForwardLinks(s, k);
  }

  lemma MovedForwardLinks(s: seq<ListHead>, k: nat)
    requires k < |s| && (k + 1 == |s| ==> Linked(s) && s[|s| - 1].next == null)
    requires k + 1 < |s| ==> s[0].next == s[k + 1]
    requires k + 1 < |s| ==>
      var after := if k + 2 < |s| then s[k + 2] else null;
      && s[k + 1].next == (if k == 0 then after else s[1])
      && (k > 0 ==> s[k].next == after)
    requires k + 1 < |s| ==>
      forall i {:trigger s[i].next} :: 0 < i < |s| - 1 && i != k && i != k + 1 ==> s[i].next == s[i + 1]
    requires k + 2 < |s| ==> s[|s| - 1].next == null
    ensures Linked(MovedForward(s, k)) && MovedForward(s, k)[|s| - 1].next == null
  {
  }

  lemma MovedForwardPermutes<T>(s: seq<T>, k: nat)
    requires NoDup(s) && k < |s|
    ensures NoDup(MovedForward(s, k)) && multiset(MovedForward(s, k)) == multiset(s)
  {
    if 0 < k && k + 1 < |s| {
      assert s == [s[0]] + s[1..k + 1] + [s[k + 1]] + s[k + 2..];
    }
  }

  /** The third header is unlinked; before that, its item changes places with the item before. */
  method Remove(item: ListHead, ghost list: ListHead?, ghost s: seq<ListHead>, ghost k: nat) returns (ret: ListHead)
    requires IsList(list, s) && k + 1 < |s| && item == s[k]
    modifies s[k], s[k + 1]
    ensures ret == s[k + 1] && ret.next == null
    ensures IsList(list, s[..k + 1] + s[k + 2..])
    ensures s[k].info == old(s[k + 1].info) && s[k + 1].info == old(s[k].info)
  {
    ret := item.next;
    var tmp := item.info;
    item.info := ret.info;
    ret.info := tmp;
    item.next := item.next.next;
    ret.next := null;
  }

  /** The inverse of Remove: s is the list that it was called on. */
  method UndoRemove(item_removed: ListHead, item_modified: ListHead,
                    ghost list: ListHead?, ghost s: seq<ListHead>, ghost k: nat) returns (ret: ListHead)
    requires NoDup(s) && k + 1 < |s| && item_modified == s[k] && item_removed == s[k + 1]
    requires IsList(list, s[..k + 1] + s[k + 2..])
    modifies s[k], s[k + 1]
    ensures ret == item_removed && IsList(list, s)
    ensures s[k].info == old(s[k + 1].info) && s[k + 1].info == old(s[k].info)
  {
    ghost var rest := s[..k + 1] + s[k + 2..];
    assert forall i :: 0 <= i < |rest| ==> rest[i] == if i <= k then s[i] else s[i + 1];
    assert k + 2 < |s| ==> rest[k + 1] == s[k + 2];
    var tmp := item_removed.info;
    item_removed.info := item_modified.info;
    item_modified.info := tmp;
    item_removed.next := item_modified.next;
    item_modified.next := item_removed;
    ret := item_removed;
    forall i | 0 <= i < |s| - 1
      ensures s[i].next == s[i + 1]
    {
      assert i < k ==> rest[i].next == rest[i + 1];
      assert i > k + 1 ==> rest[i - 1].next == rest[i];
    }
  }
}
