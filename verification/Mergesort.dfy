/** core_list_mergesort: the in-place, bottom-up merge sort of the linked list. */
module Mergesort {
  import opened Sequences
  import opened MergeOrder
  import opened ItemData
  import opened ListHeap
  import opened Comparators

  /** ee_s32: every assignment to it is checked to stay in range. */
  const MAX_S32 := 0x7fff_ffff
  type s32 = x: int | -0x8000_0000 <= x <= MAX_S32

  /** The recorded keys are those of headers whose data bits are settled. */
  ghost predicate Tracks(keys: map<ListHead, int>, cmp: Comparator, res: CoreResults?, nodes: set<ListHead>)
    reads nodes`info, set n | n in nodes :: n.info
  {
    keys.Keys <= nodes &&
    forall n :: n in keys ==> Settled(cmp, res, n.info.item) && keys[n] == Key(cmp, n.info, n.info.item)
  }

  /** The items a sort may touch. */
  ghost predicate Owns(nodes: set<ListHead>, items: set<ListData>)
    reads nodes`info
  {
    forall n :: n in nodes ==> n.info in items
  }

  /** What is still to be merged: chains that are disjoint from each other and from the output. */
  ghost predicate Apart<T>(out: seq<T>, a: seq<T>, b: seq<T>) {
    NoDup(out) && NoDup(a) && NoDup(b) &&
    (forall x :: x in out ==> x !in a && x !in b) &&
    (forall x :: x in a ==> x !in b)
  }

  /** The nodes of a list, split into output and two remainders. */
  ghost predicate Covers<T>(nodes: set<T>, out: seq<T>, a: seq<T>, b: seq<T>) {
    (forall x :: x in nodes ==> x in out || x in a || x in b) &&
    (forall x :: x in out ==> x in nodes) &&
    (forall x :: x in a ==> x in nodes) &&
    (forall x :: x in b ==> x in nodes)
  }

  ghost predicate SameElements<T>(nodes: set<T>, s: seq<T>) {
    (forall x :: x in nodes ==> x in s) && (forall x :: x in s ==> x in nodes)
  }

  lemma MoveFirst<T>(nodes: set<T>, out: seq<T>, a: seq<T>, b: seq<T>)
    requires Apart(out, a, b) && Covers(nodes, out, a, b) && a != []
    ensures Apart(out + [a[0]], a[1..], b) && Covers(nodes, out + [a[0]], a[1..], b)
  {
    assert a == [a[0]] + a[1..];
    forall i | 0 <= i < |out|
      ensures out[i] != a[0]
    {
      assert out[i] in out && a[0] in a;
    }
  }

  lemma ApartSwap<T>(nodes: set<T>, out: seq<T>, a: seq<T>, b: seq<T>)
    requires Apart(out, a, b) && Covers(nodes, out, a, b)
    ensures Apart(out, b, a) && Covers(nodes, out, b, a)
  {
  }

  function Take<T>(s: seq<T>, n: nat): (t: seq<T>)
    ensures |t| == if n <= |s| then n else |s|
  {
    if n <= |s| then s[..n] else s
  }

  function Drop<T>(s: seq<T>, n: nat): seq<T> {
    if n <= |s| then s[n..] else []
  }

  /** The merged list so far. The last header still has its old successor. */
  ghost predicate Output(list: ListHead?, tail: ListHead?, out: seq<ListHead>)
    reads out
  {
    Linked(out) && list == First(out) && tail == if out == [] then null else out[|out| - 1]
  }

  /** The unmerged rest of the list, up to its end. */
  ghost predicate Rest(q: ListHead?, b: seq<ListHead>)
    reads b
  {
    Linked(b) && q == First(b) && (b != [] ==> b[|b| - 1].next == null)
  }

  lemma SegmentRest(a: seq<ListHead>)
    requires Linked(a) && a != []
    ensures Linked(a[1..]) && (a[1..] != [] ==> a[0].next == a[1..][0])
  {
  }

  lemma RestStep(q: ListHead?, b: seq<ListHead>)
    requires Rest(q, b) && b != []
    ensures q == b[0] && Rest(b[0].next, b[1..])
  {
  }

  lemma RestIsEmpty(q: ListHead?, b: seq<ListHead>)
    requires Rest(q, b)
    ensures q == First(b) && (q == null <==> b == []) && (b != [] ==> q == b[0])
  {
  }

  lemma TailIsOutput(list: ListHead?, tail: ListHead?, out: seq<ListHead>)
    requires Output(list, tail, out)
    ensures tail == null || tail in out
  {
  }

  /** Appends e to the merged list; what is still to be merged keeps its links. */
  method Append(list0: ListHead?, tail: ListHead?, e: ListHead, q: ListHead?,
                ghost out: seq<ListHead>, ghost a: seq<ListHead>, ghost b: seq<ListHead>) returns (list: ListHead?)
    requires Output(list0, tail, out) && Apart(out + [e], a, b) && Linked(a) && Rest(q, b)
    modifies if tail == null then {} else {tail}`next
    ensures Output(list, e, out + [e]) && Linked(a) && Rest(q, b)
  {
    list := list0;
    if tail != null {
      assert (out + [e])[|out| - 1] == tail && tail in out + [e];
      assert tail !in a && tail !in b;
      assert forall i :: 0 <= i < |a| ==> a[i] in a;
      assert forall i :: 0 <= i < |b| ==> b[i] in b;
      tail.next := e;
    } else {
      list := e;
    }
  }

  /** Whether the next element of the merge comes from p. Comparing settles both heads. */
  method ComesFromP(p: ListHead?, q: ListHead?, psize: s32, qsize: s32, cmp: Comparator, res: CoreResults?,
                    ghost origin: seq<ListHead>, ghost nodes: set<ListHead>, ghost items: set<ListData>,
                    ghost keys0: map<ListHead, int>, ghost a: seq<ListHead>, ghost b: seq<ListHead>)
    returns (takeP: bool, ghost keys: map<ListHead, int>)
    requires cmp.CmpComplex? ==> res != null
    requires psize == |a| && qsize >= 0 && (a != [] ==> p == a[0])
    requires q == First(b) && (q == null <==> b == []) && (psize > 0 || (qsize > 0 && q != null))
    requires (forall x :: x in a ==> x in nodes) && (forall x :: x in b ==> x in nodes)
    requires Owns(nodes, items) && Tracks(keys0, cmp, res, nodes)
    requires Earlier(origin, a, Take(b, qsize))
    modifies items, res
    ensures Tracks(keys, cmp, res, nodes) && Extends(keys0, keys)
    ensures forall d :: d in items ==> Evolves(cmp, res, old(d.item), d.item)
    ensures takeP ==> a != [] && (Take(b, qsize) != [] ==> Before(keys, origin, a[0], b[0]))
    ensures !takeP ==> Take(b, qsize) != [] && (a != [] ==> Before(keys, origin, b[0], a[0]))
  {
    hide IndexOf, Evolves, Tracks, Owns;
    EvolvesReflexive(cmp, res);
    keys := keys0;
    if psize == 0 {
      takeP := false;
    } else if qsize == 0 || q == null {
      takeP := true;
    } else {
      var order;
      order, keys := CompareHeads(p, q, cmp, res, nodes, items, keys0);
      takeP := order <= 0;
    }
  }

  method CompareHeads(p: ListHead, q: ListHead, cmp: Comparator, res: CoreResults?, ghost nodes: set<ListHead>,
                      ghost items: set<ListData>, ghost keys0: map<ListHead, int>)
    returns (order: int, ghost keys: map<ListHead, int>)
    requires cmp.CmpComplex? ==> res != null
    requires p in nodes && q in nodes && Owns(nodes, items) && Tracks(keys0, cmp, res, nodes)
    modifies items, res
    ensures Tracks(keys, cmp, res, nodes) && Extends(keys0, keys)
    ensures forall d :: d in items ==> Evolves(cmp, res, old(d.item), d.item)
    ensures p in keys && q in keys && order == keys[p] - keys[q]
  {
    hide Evolves, Settled, Key;
    order := Compare(cmp, p.info, q.info, res);
    keys := keys0[p := Key(cmp, p.info, p.info.item)][q := Key(cmp, q.info, q.info.item)];
    EvolvesReflexive(cmp, res);
    forall n | n in keys0
      ensures n.info.item == old(n.info.item)
    {
      assert n.info in items;
      SettledStays(cmp, res, old(n.info.item), n.info.item);
    }
  }

  /** The state of a merge of a0 with the first insize headers of b0: `done` is the output of
  earlier merges, `merged` that of this one, a and b are left, b to be used up to qsize. */
  ghost predicate Merging<T>(keys: map<T, int>, origin: seq<T>, nodes: set<T>, done: seq<T>, merged: seq<T>,
                             a: seq<T>, b: seq<T>, qsize: nat, a0: seq<T>, b0: seq<T>, insize: nat)
  {
    && Apart(done + merged, a, b) && Covers(nodes, done + merged, a, b)
    && InOrder(keys, origin, merged + a) && InOrder(keys, origin, merged + Take(b, qsize))
    && Earlier(origin, a, Take(b, qsize))
    && multiset(merged) + multiset(a) + multiset(Take(b, qsize)) == multiset(a0) + multiset(Take(b0, insize))
    && Drop(b, qsize) == Drop(b0, insize)
  }

  lemma MergingParts<T>(keys: map<T, int>, origin: seq<T>, nodes: set<T>, done: seq<T>, merged: seq<T>,
                        a: seq<T>, b: seq<T>, qsize: nat, a0: seq<T>, b0: seq<T>, insize: nat)
    requires Merging(keys, origin, nodes, done, merged, a, b, qsize, a0, b0, insize)
    ensures Apart(done + merged, a, b) && NoDup(done + merged)
    ensures forall x :: x in done + merged ==> x in nodes
    ensures forall x :: x in a ==> x in nodes
    ensures forall x :: x in b ==> x in nodes
    ensures Earlier(origin, a, Take(b, qsize))
  {
  }

  lemma MergingDone<T>(keys: map<T, int>, origin: seq<T>, nodes: set<T>, done: seq<T>, merged: seq<T>,
                       a: seq<T>, b: seq<T>, qsize: nat, a0: seq<T>, b0: seq<T>, insize: nat)
    requires Merging(keys, origin, nodes, done, merged, a, b, qsize, a0, b0, insize)
    requires a == [] && (qsize == 0 || b == []) && a0 != []
    ensures merged != [] && b == Drop(b0, insize)
    ensures Apart(done + merged, [], b) && Covers(nodes, done + merged, [], b)
    ensures InOrder(keys, origin, merged)
    ensures multiset(merged) == multiset(a0) + multiset(Take(b0, insize))
  {
    hide InOrder, IndexOf, Before;
    assert merged + a == merged && Take(b, qsize) == [] && Drop(b, qsize) == b;
    assert a0[0] in multiset(merged);
  }

  lemma MergingStart<T>(keys: map<T, int>, origin: seq<T>, nodes: set<T>, done: seq<T>, a: seq<T>, b: seq<T>,
                        insize: nat)
    requires Apart(done, a, b) && Covers(nodes, done, a, b)
    requires InOrder(keys, origin, a) && InOrder(keys, origin, Take(b, insize)) && Earlier(origin, a, Take(b, insize))
    ensures Merging(keys, origin, nodes, done, [], a, b, insize, a, b, insize)
  {
  }

  lemma ExtendsReflexive<T>(keys: map<T, int>)
    ensures Extends(keys, keys)
  {
  }

  lemma ExtendsTransitive<T>(a: map<T, int>, b: map<T, int>, c: map<T, int>)
    requires Extends(a, b) && Extends(b, c)
    ensures Extends(a, c)
  {
  }

  lemma MergingExtends<T>(keys: map<T, int>, keys': map<T, int>, origin: seq<T>, nodes: set<T>, done: seq<T>,
                          merged: seq<T>, a: seq<T>, b: seq<T>, qsize: nat, a0: seq<T>, b0: seq<T>, insize: nat)
    requires Merging(keys, origin, nodes, done, merged, a, b, qsize, a0, b0, insize) && Extends(keys, keys')
    ensures Merging(keys', origin, nodes, done, merged, a, b, qsize, a0, b0, insize)
  {
  }

  lemma EarlierThanRest<T>(origin: seq<T>, a: seq<T>, b: seq<T>)
    requires Earlier(origin, a, b) && b != []
    ensures Earlier(origin, a, b[1..])
  {
  }

  lemma MergingFromP<T>(keys: map<T, int>, origin: seq<T>, nodes: set<T>, done: seq<T>, merged: seq<T>,
                        a: seq<T>, b: seq<T>, qsize: nat, a0: seq<T>, b0: seq<T>, insize: nat)
    requires Merging(keys, origin, nodes, done, merged, a, b, qsize, a0, b0, insize)
    requires a != [] && (Take(b, qsize) != [] ==> Before(keys, origin, a[0], b[0]))
    ensures Merging(keys, origin, nodes, done, merged + [a[0]], a[1..], b, qsize, a0, b0, insize)
  {
    hide InOrder, Before, IndexOf;
    MoveFirst(nodes, done + merged, a, b);
    assert (done + merged) + [a[0]] == done + (merged + [a[0]]);
    MergeStep(keys, origin, merged, a, Take(b, qsize));
    assert a == [a[0]] + a[1..];
    hide Apart, Covers;
  }

  lemma MergingFromQ<T>(keys: map<T, int>, origin: seq<T>, nodes: set<T>, done: seq<T>, merged: seq<T>,
                        a: seq<T>, b: seq<T>, qsize: nat, a0: seq<T>, b0: seq<T>, insize: nat)
    requires Merging(keys, origin, nodes, done, merged, a, b, qsize, a0, b0, insize)
    requires Take(b, qsize) != [] && (a != [] ==> Before(keys, origin, b[0], a[0]))
    ensures Merging(keys, origin, nodes, done, merged + [b[0]], a, b[1..], qsize - 1, a0, b0, insize)
  {
    hide InOrder, Before, IndexOf, Apart, Covers, Earlier;
    ApartSwap(nodes, done + merged, a, b);
    MoveFirst(nodes, done + merged, b, a);
    assert (done + merged) + [b[0]] == done + (merged + [b[0]]);
    ApartSwap(nodes, done + (merged + [b[0]]), b[1..], a);
    EarlierThanRest(origin, a, Take(b, qsize));
    MergeStep(keys, origin, merged, Take(b, qsize), a);
    assert Take(b, qsize) == [b[0]] + Take(b[1..], qsize - 1);
    assert Take(b, qsize)[1..] == Take(b[1..], qsize - 1);
    assert Drop(b, qsize) == Drop(b[1..], qsize - 1);
  }

  /** The inner loop: merges the run of psize headers at p with the run of up to insize
  headers at q, appending to the list that ends in tail. */
  method MergeRuns(list0: ListHead?, tail0: ListHead?, p0: ListHead, q0: ListHead?, psize0: s32, insize: s32,
                   cmp: Comparator, res: CoreResults?,
                   ghost origin: seq<ListHead>, ghost nodes: set<ListHead>, ghost items: set<ListData>,
                   ghost keys0: map<ListHead, int>, ghost done: seq<ListHead>,
                   ghost a0: seq<ListHead>, ghost b0: seq<ListHead>)
    returns (list: ListHead?, tail: ListHead?, q: ListHead?,
             ghost keys: map<ListHead, int>, ghost merged: seq<ListHead>)
    requires cmp.CmpComplex? ==> res != null
    requires Owns(nodes, items) && Tracks(keys0, cmp, res, nodes)
    requires Apart(done, a0, b0) && Covers(nodes, done, a0, b0)
    requires Output(list0, tail0, done)
    requires insize > 0 && psize0 == |a0| > 0 && p0 == a0[0] && Linked(a0) && Rest(q0, b0)
    requires InOrder(keys0, origin, a0) && InOrder(keys0, origin, Take(b0, insize))
    requires Earlier(origin, a0, Take(b0, insize))
    modifies nodes`next, items, res
    ensures Owns(nodes, items) && Tracks(keys, cmp, res, nodes) && Extends(keys0, keys)
    ensures forall d :: d in items ==> Evolves(cmp, res, old(d.item), d.item)
    ensures Output(list, tail, done + merged) && merged != []
    ensures Rest(q, Drop(b0, insize))
    ensures Apart(done + merged, [], Drop(b0, insize)) && Covers(nodes, done + merged, [], Drop(b0, insize))
    ensures InOrder(keys, origin, merged)
    ensures multiset(merged) == multiset(a0) + multiset(Take(b0, insize))
  {
    hide Evolves, IndexOf, InOrder, Before, Tracks, Extends, Merging, Covers, Earlier, Apart;
    hide Settled, Key, Owns, Take, Drop, Linked, Rest, Output, First;
    list, tail, q, keys, merged := list0, tail0, q0, keys0, [];
    var p: ListHead?, psize: s32, qsize: s32 := p0, psize0, insize;
    ghost var a, b := a0, b0;
    assert done + merged == done;
    MergingStart(keys0, origin, nodes, done, a0, b0, insize);
    ExtendsReflexive(keys0);
    EvolvesReflexive(cmp, res);
    while psize > 0 || (qsize > 0 && q != null)
      invariant psize == |a| && qsize >= 0 && (a != [] ==> p == a[0]) && Linked(a) && Rest(q, b)
      invariant Owns(nodes, items) && Tracks(keys, cmp, res, nodes) && Extends(keys0, keys)
      invariant forall d :: d in items ==> Evolves(cmp, res, old(d.item), d.item)
      invariant Output(list, tail, done + merged)
      invariant Merging(keys, origin, nodes, done, merged, a, b, qsize, a0, b0, insize)
      decreases psize + qsize
    {
      var e: ListHead;
      ghost var keys', out := keys, done + merged;
      var takeP;
      MergingParts(keys, origin, nodes, done, merged, a, b, qsize, a0, b0, insize);
      RestIsEmpty(q, b);
      TailIsOutput(list, tail, out);
      label L:
      takeP, keys := ComesFromP(p, q, psize, qsize, cmp, res, origin, nodes, items, keys, a, b);
      ExtendsTransitive(keys0, keys', keys);
      forall d | d in items
        ensures Evolves(cmp, res, old(d.item), d.item)
      {
        EvolvesTransitive(cmp, res, old(d.item), old@L(d.item), d.item);
      }
      MergingExtends(keys', keys, origin, nodes, done, merged, a, b, qsize, a0, b0, insize);
      if takeP {
        MergingFromP(keys, origin, nodes, done, merged, a, b, qsize, a0, b0, insize);
        SegmentRest(a);
        e := p;
        p := p.next;
        psize := psize - 1;
        merged, a := merged + [a[0]], a[1..];
      } else {
        MergingFromQ(keys, origin, nodes, done, merged, a, b, qsize, a0, b0, insize);
        RestStep(q, b);
        e := q;
        q := q.next;
        qsize := qsize - 1;
        merged, b := merged + [b[0]], b[1..];
      }
      assert done + merged == out + [e];
      MergingParts(keys, origin, nodes, done, merged, a, b, qsize, a0, b0, insize);
      list := Append(list, tail, e, q, out, a, b);
      tail := e;
    }
    RestIsEmpty(q, b);
    MergingDone(keys, origin, nodes, done, merged, a, b, qsize, a0, b0, insize);
  }

  // ---------- a pass over the list ----------

  /** The state of a pass of width w: `runs` is what has been merged, `todo` what has not. */
  ghost predicate Passing<T>(keys: map<T, int>, origin: seq<T>, nodes: set<T>, w: nat,
                             runs: seq<seq<T>>, todo: seq<seq<T>>, runs0: seq<seq<T>>)
  {
    && Apart(Flatten(runs), [], Flatten(todo)) && Covers(nodes, Flatten(runs), [], Flatten(todo))
    && Runs(keys, origin, 2 * w, runs) && Runs(keys, origin, w, todo)
    && (todo != [] ==> forall i :: 0 <= i < |runs| ==> |runs[i]| == 2 * w)
    && (forall i, j :: 0 <= i < |runs| && 0 <= j < |todo| ==> Earlier(origin, runs[i], todo[j]))
    && multiset(Flatten(runs)) + multiset(Flatten(todo)) == multiset(Flatten(runs0))
    && (2 * |runs| + |todo| == |runs0| || (todo == [] && 2 * |runs| == |runs0| + 1))
  }

  /** The second of the first two runs, if there is one. */
  function Second<T>(todo: seq<seq<T>>): seq<T> {
    if |todo| > 1 then todo[1] else []
  }

  lemma PassingHead<T>(keys: map<T, int>, origin: seq<T>, nodes: set<T>, w: nat,
                       runs: seq<seq<T>>, todo: seq<seq<T>>, runs0: seq<seq<T>>)
    requires Passing(keys, origin, nodes, w, runs, todo, runs0) && todo != []
    ensures var a, b := todo[0], Flatten(todo[1..]);
      && Flatten(todo) == a + b && a != [] && |Drop(todo, 2)| < |todo| && |runs| < |runs0|
      && Apart(Flatten(runs), a, b) && Covers(nodes, Flatten(runs), a, b)
      && (|a| == w || (|a| < w && b == []))
      && Take(b, w) == Second(todo) && Drop(b, w) == Flatten(Drop(todo, 2))
      && InOrder(keys, origin, a) && InOrder(keys, origin, Take(b, w)) && Earlier(origin, a, Take(b, w))
  {
    assert InOrder(keys, origin, []);
    hide InOrder, IndexOf;
    var a, rest := todo[0], todo[1..];
    var b := Flatten(rest);
    assert Flatten(todo) == a + b;
    if |todo| > 1 {
      assert b == rest[0] + Flatten(rest[1..]);
      assert rest[1..] == todo[2..];
      if |todo| == 2 {
        assert Flatten(rest[1..]) == [];
      }
    }
    SplitApart(nodes, Flatten(runs), a, b);
  }

  lemma SplitApart<T>(nodes: set<T>, out: seq<T>, a: seq<T>, b: seq<T>)
    requires Apart(out, [], a + b) && Covers(nodes, out, [], a + b)
    ensures Apart(out, a, b) && Covers(nodes, out, a, b)
  {
    forall i, j | 0 <= i < |a| && 0 <= j < |b|
      ensures a[i] != b[j]
    {
      assert (a + b)[i] == a[i] && (a + b)[|a| + j] == b[j];
    }
    forall i, j | 0 <= i < j < |b|
      ensures b[i] != b[j]
    {
      assert (a + b)[|a| + i] == b[i] && (a + b)[|a| + j] == b[j];
    }
    forall i, j | 0 <= i < j < |a|
      ensures a[i] != a[j]
    {
      assert (a + b)[i] == a[i] && (a + b)[j] == a[j];
    }
  }

  lemma RunsBeforeMerge<T>(origin: seq<T>, runs: seq<seq<T>>, todo: seq<seq<T>>, merged: seq<T>)
    requires todo != [] && multiset(merged) == multiset(todo[0]) + multiset(Second(todo))
    requires forall i, j :: 0 <= i < |runs| && 0 <= j < |todo| ==> Earlier(origin, runs[i], todo[j])
    ensures forall i :: 0 <= i < |runs| ==> Earlier(origin, runs[i], merged)
  {
    hide Earlier;
    forall i | 0 <= i < |runs|
      ensures Earlier(origin, runs[i], merged)
    {
      assert |todo| > 1 ==> Earlier(origin, runs[i], todo[1]);
      EarlierThanMerge(origin, runs[i], todo[0], Second(todo), merged);
    }
  }

  lemma MergeBeforeRest<T>(origin: seq<T>, todo: seq<seq<T>>, merged: seq<T>)
    requires todo != [] && multiset(merged) == multiset(todo[0]) + multiset(Second(todo))
    requires forall i, j :: 0 <= i < j < |todo| ==> Earlier(origin, todo[i], todo[j])
    ensures forall j :: 0 <= j < |Drop(todo, 2)| ==> Earlier(origin, merged, Drop(todo, 2)[j])
  {
    hide Earlier;
    forall j | 0 <= j < |Drop(todo, 2)|
      ensures Earlier(origin, merged, Drop(todo, 2)[j])
    {
      assert Drop(todo, 2)[j] == todo[j + 2];
      MergeIsEarlier(origin, todo[0], Second(todo), merged, todo[j + 2]);
    }
  }

  lemma PassingNext<T>(keys: map<T, int>, keys': map<T, int>, origin: seq<T>, nodes: set<T>, w: nat,
                       runs: seq<seq<T>>, todo: seq<seq<T>>, runs0: seq<seq<T>>, merged: seq<T>)
    requires Passing(keys, origin, nodes, w, runs, todo, runs0) && todo != [] && Extends(keys, keys')
    requires InOrder(keys', origin, merged) && multiset(merged) == multiset(todo[0]) + multiset(Second(todo))
    requires var out, b := Flatten(runs) + merged, Flatten(Drop(todo, 2));
      Apart(out, [], b) && Covers(nodes, out, [], b)
    ensures Passing(keys', origin, nodes, w, runs + [merged], Drop(todo, 2), runs0)
    ensures Flatten(runs + [merged]) == Flatten(runs) + merged
  {
    hide InOrder, Extends, Earlier, Apart, Covers;
    FlattenAppend(runs, merged);
    RunsExtend(keys, keys', origin, 2 * w, runs);
    RunsExtend(keys, keys', origin, w, todo);
    RunsDropTwo(keys', origin, w, todo);
    FlattenPair(todo);
    var a, b, rest := todo[0], Second(todo), Drop(todo, 2);
    assert |merged| == |multiset(merged)| == |a| + |b|;
    RunsBeforeMerge(origin, runs, todo, merged);
    MergeBeforeRest(origin, todo, merged);
    AppendRun(keys', origin, 2 * w, runs, merged);
    MoveElements(Flatten(runs), merged, a, b, Flatten(rest));
    hide Runs, Flatten, Second;
    forall i, j | 0 <= i < |runs + [merged]| && 0 <= j < |rest|
      ensures Earlier(origin, (runs + [merged])[i], rest[j])
    {
      assert rest[j] == todo[j + 2];
    }
  }

  lemma RunsDropTwo<T>(keys: map<T, int>, origin: seq<T>, w: nat, todo: seq<seq<T>>)
    requires Runs(keys, origin, w, todo) && todo != []
    ensures Runs(keys, origin, w, Drop(todo, 2))
    ensures |todo[0]| <= w && |Second(todo)| <= w && |todo[0]| > 0
    ensures Drop(todo, 2) != [] ==> |todo[0]| == |Second(todo)| == w
  {
  }

  lemma MoveElements<T>(out: seq<T>, merged: seq<T>, a: seq<T>, b: seq<T>, rest: seq<T>)
    requires multiset(merged) == multiset(a) + multiset(b)
    ensures multiset(out + merged) + multiset(rest) == multiset(out) + multiset(a + b + rest)
  {
  }

  lemma EarlierThanMerge<T>(origin: seq<T>, r: seq<T>, a: seq<T>, b: seq<T>, merged: seq<T>)
    requires Earlier(origin, r, a) && (b != [] ==> Earlier(origin, r, b))
    requires multiset(merged) == multiset(a) + multiset(b)
    ensures Earlier(origin, r, merged)
  {
    MergeElements(a, b, merged);
    hide IndexOf;
  }

  lemma MergeIsEarlier<T>(origin: seq<T>, a: seq<T>, b: seq<T>, merged: seq<T>, r: seq<T>)
    requires Earlier(origin, a, r) && (b != [] ==> Earlier(origin, b, r))
    requires multiset(merged) == multiset(a) + multiset(b)
    ensures Earlier(origin, merged, r)
  {
    MergeElements(a, b, merged);
    hide IndexOf;
  }

  lemma MergeElements<T>(a: seq<T>, b: seq<T>, merged: seq<T>)
    requires multiset(merged) == multiset(a) + multiset(b)
    ensures forall x :: x in merged ==> x in a || x in b
  {
    forall x | x in merged
      ensures x in a || x in b
    {
      assert multiset(merged)[x] > 0;
    }
  }

  lemma FlattenPair<T>(todo: seq<seq<T>>)
    requires todo != []
    ensures Flatten(todo) == todo[0] + Second(todo) + Flatten(Drop(todo, 2))
  {
  }

  /** Steps up to insize places along from p. */
  method StepAlong(p: ListHead, insize: s32, ghost a: seq<ListHead>, ghost b: seq<ListHead>)
    returns (q: ListHead?, psize: s32)
    requires insize > 0 && a != [] && p == a[0] && Rest(p, a + b)
    requires |a| == insize || (|a| < insize && b == [])
    ensures q == First(b) && psize == |a| && Linked(a) && Rest(q, b)
  {
    ghost var s := a + b;
    LinkedSplit(a, b);
    q, psize := p, 0;
    var i: s32 := 0;
    while i < insize
      invariant 0 <= i == psize && (psize < |a| || psize == |a| == insize)
      invariant q == if psize < |s| then s[psize] else null
      decreases insize - i
    {
      psize := psize + 1;
      q := q.next;
      if q == null {
        break;
      }
      i := i + 1;
    }
  }

  lemma LinkedSplit(a: seq<ListHead>, b: seq<ListHead>)
    requires Linked(a + b)
    ensures Linked(a) && Linked(b)
  {
    var s := a + b;
    forall i | 0 <= i < |a| - 1
      ensures a[i].next == a[i + 1]
    {
      assert s[i].next == s[i + 1];
    }
    forall i | 0 <= i < |b| - 1
      ensures b[i].next == b[i + 1]
    {
      assert s[|a| + i].next == s[|a| + i + 1];
    }
  }

  /** One pass: neighbouring runs of width insize are merged into runs of twice that width. */
  method MergePass(list0: ListHead, insize: s32, cmp: Comparator, res: CoreResults?,
                   ghost origin: seq<ListHead>, ghost nodes: set<ListHead>, ghost items: set<ListData>,
                   ghost keys0: map<ListHead, int>, ghost runs0: seq<seq<ListHead>>)
    returns (list: ListHead?, nmerges: s32, ghost keys: map<ListHead, int>, ghost runs: seq<seq<ListHead>>)
    requires cmp.CmpComplex? ==> res != null
    requires |runs0| <= MAX_S32
    requires insize > 0 && runs0 != [] && Runs(keys0, origin, insize, runs0)
    requires IsList(list0, Flatten(runs0)) && SameElements(nodes, Flatten(runs0))
    requires Owns(nodes, items) && Tracks(keys0, cmp, res, nodes)
    modifies nodes`next, items, res
    ensures Owns(nodes, items) && Tracks(keys, cmp, res, nodes)
    ensures forall d :: d in items ==> Evolves(cmp, res, old(d.item), d.item)
    ensures IsList(list, Flatten(runs)) && SameElements(nodes, Flatten(runs))
    ensures Runs(keys, origin, 2 * insize, runs) && multiset(Flatten(runs)) == multiset(Flatten(runs0))
    ensures nmerges == |runs| == (|runs0| + 1) / 2 && list != null
  {
    hide Evolves, IndexOf, InOrder, Before, Tracks, Extends, Merging, Passing, Covers, Earlier, Apart;
    hide Settled, Key, Owns, Take, Drop, Linked, Rest, Output, First, Runs;
    var p: ListHead?, tail: ListHead? := list0, null;
    list, nmerges := null, 0;
    keys, runs := keys0, [];
    ghost var todo := runs0;
    ghost var out: seq<ListHead> := [];
    ListIsRest(list0, Flatten(runs0));
    PassingStart(keys, origin, nodes, insize, runs0);
    EvolvesReflexive(cmp, res);
    while p != null
      invariant Owns(nodes, items) && Tracks(keys, cmp, res, nodes)
      invariant forall d :: d in items ==> Evolves(cmp, res, old(d.item), d.item)
      invariant out == Flatten(runs) && Output(list, tail, out) && Rest(p, Flatten(todo))
      invariant Passing(keys, origin, nodes, insize, runs, todo, runs0)
      invariant nmerges == |runs|
      decreases |todo|
    {
      ghost var keys' := keys;
      RestIsEmpty(p, Flatten(todo));
      PassingHead(keys, origin, nodes, insize, runs, todo, runs0);
      nmerges := nmerges + 1;
      ghost var a, b := todo[0], Flatten(todo[1..]);
      var q, psize := StepAlong(p, insize, a, b);
      label L:
      ghost var merged;
      list, tail, q, keys, merged := MergeRuns(list, tail, p, q, psize, insize, cmp, res,
                                               origin, nodes, items, keys, out, a, b);
      forall d | d in items
        ensures Evolves(cmp, res, old(d.item), d.item)
      {
        EvolvesTransitive(cmp, res, old(d.item), old@L(d.item), d.item);
      }
      PassingNext(keys', keys, origin, nodes, insize, runs, todo, runs0, merged);
      runs, todo, out := runs + [merged], Drop(todo, 2), out + merged;
      p := q;
    }
    RestIsEmpty(p, Flatten(todo));
    PassingDone(keys, origin, nodes, insize, runs, todo, runs0);
    TailIsOutput(list, tail, out);
    OutputNotEmpty(list, tail, out);
    Terminate(list, tail, out);
  }

  /** The last header still has its successor of before the pass. */
  method Terminate(list: ListHead?, tail: ListHead, ghost out: seq<ListHead>)
    requires Output(list, tail, out) && NoDup(out)
    modifies tail`next
    ensures IsList(list, out)
  {
    tail.next := null;
  }

  lemma OutputNotEmpty(list: ListHead?, tail: ListHead?, out: seq<ListHead>)
    requires Output(list, tail, out)
    ensures (tail == null <==> out == []) && (list == null <==> out == [])
  {
  }

  lemma ListIsRest(list: ListHead?, s: seq<ListHead>)
    requires IsList(list, s)
    ensures Rest(list, s) && NoDup(s) && Output(null, null, [])
  {
  }

  lemma PassingStart<T>(keys: map<T, int>, origin: seq<T>, nodes: set<T>, w: nat, runs0: seq<seq<T>>)
    requires Runs(keys, origin, w, runs0) && NoDup(Flatten(runs0))
    requires SameElements(nodes, Flatten(runs0))
    ensures Passing(keys, origin, nodes, w, [], runs0, runs0)
  {
  }

  lemma PassingDone<T>(keys: map<T, int>, origin: seq<T>, nodes: set<T>, w: nat,
                       runs: seq<seq<T>>, todo: seq<seq<T>>, runs0: seq<seq<T>>)
    requires Passing(keys, origin, nodes, w, runs, todo, runs0) && Flatten(todo) == [] && runs0 != []
    ensures Runs(keys, origin, 2 * w, runs) && |runs| == (|runs0| + 1) / 2
    ensures NoDup(Flatten(runs)) && Flatten(runs) != []
    ensures SameElements(nodes, Flatten(runs))
    ensures multiset(Flatten(runs)) == multiset(Flatten(runs0))
  {
  }

  // ---------- the sort ----------

  /** Sorted by the keys that the items have now, ties in the order of origin. */
  ghost predicate SortedStably(cmp: Comparator, origin: seq<ListHead>, s: seq<ListHead>)
    reads s, set i | 0 <= i < |s| :: s[i].info
  {
    forall i, j :: 0 <= i < j < |s| ==>
      var x, y := Key(cmp, s[i].info, s[i].info.item), Key(cmp, s[j].info, s[j].info.item);
      x < y || (x == y && IndexOf(origin, s[i]) < IndexOf(origin, s[j]))
  }

  ghost predicate AllSettled(cmp: Comparator, res: CoreResults?, s: seq<ListHead>)
    reads s, set i | 0 <= i < |s| :: s[i].info
  {
    forall i :: 0 <= i < |s| ==> Settled(cmp, res, s[i].info.item)
  }

  /** The list s is relinked into `sorted`: the same headers, in order and stable, every item
  settled unless there is only one. The list must not be empty: the pass ends with tail->next. */
  method Sort(list0: ListHead, cmp: Comparator, res: CoreResults?,
              ghost s: seq<ListHead>, ghost items: set<ListData>)
    returns (list: ListHead?, ghost sorted: seq<ListHead>)
    requires cmp.CmpComplex? ==> res != null
    requires IsList(list0, s) && |s| <= MAX_S32
    requires forall n :: n in s ==> n.info in items
    modifies (set n | n in s)`next, items, res
    ensures IsList(list, sorted) && multiset(sorted) == multiset(s)
    ensures SortedStably(cmp, s, sorted)
    ensures |s| >= 2 ==> AllSettled(cmp, res, sorted)
    ensures forall d :: d in items ==> Evolves(cmp, res, old(d.item), d.item)
  {
    hide Evolves, IndexOf, InOrder, Before, Extends, Settled, Key, Runs, IsList, Flatten, Singletons,
         SortedStably, AllSettled, SameElements, NoDup, Tracks;
    ghost var nodes: set<ListHead> := set n | n in s;
    SortStarts(list0, cmp, res, s, nodes);
    ghost var keys: map<ListHead, int> := map[];
    ghost var runs := Singletons(s);
    SingletonRuns(keys, s);
    EvolvesReflexive(cmp, res);
    var insize: s32, nmerges: s32 := 1, 0;
    list, sorted := list0, s;
    while true
      invariant 0 < insize && 0 < |runs| <= |s|
      invariant list != null && IsList(list, Flatten(runs)) && SameElements(nodes, Flatten(runs))
      invariant Owns(nodes, items) && Tracks(keys, cmp, res, nodes)
      invariant Runs(keys, s, insize, runs) && multiset(Flatten(runs)) == multiset(s)
      invariant forall d :: d in items ==> Evolves(cmp, res, old(d.item), d.item)
      decreases |runs|
    {
      label L:
      ghost var before := runs;
      list, nmerges, keys, runs := MergePass(list, insize, cmp, res, s, nodes, items, keys, runs);
      forall d | d in items
        ensures Evolves(cmp, res, old(d.item), d.item)
      {
        EvolvesTransitive(cmp, res, old(d.item), old@L(d.item), d.item);
      }
      if nmerges <= 1 {
        sorted := Flatten(runs);
        OnlyRun(keys, s, 2 * insize, runs);
        SortedResult(keys, cmp, res, nodes, s, sorted);
        return;
      }
      DoublingStaysBelow(keys, s, 2 * insize, runs);
      insize := insize * 2;
    }
  }

  lemma SortStarts(list: ListHead, cmp: Comparator, res: CoreResults?, s: seq<ListHead>, nodes: set<ListHead>)
    requires IsList(list, s) && nodes == set n | n in s
    ensures NoDup(s) && s != [] && SameElements(nodes, s) && Tracks(map[], cmp, res, nodes)
    ensures |Singletons(s)| == |s|
  {
  }

  /** With at least two runs left, their width is still below the length of the list. */
  lemma DoublingStaysBelow<T>(keys: map<T, int>, s: seq<T>, w: nat, runs: seq<seq<T>>)
    requires Runs(keys, s, w, runs) && multiset(Flatten(runs)) == multiset(s) && |runs| >= 2
    ensures w < |s|
  {
    hide Runs, Flatten;
    RunCount(keys, s, w, runs);
    PermutationLength(Flatten(runs), s);
    assert (|runs| - 2) * w >= 0;
  }

  lemma OnlyRun<T>(keys: map<T, int>, origin: seq<T>, w: nat, runs: seq<seq<T>>)
    requires Runs(keys, origin, w, runs) && |runs| == 1
    ensures InOrder(keys, origin, Flatten(runs))
  {
  }

  lemma SortedResult(keys: map<ListHead, int>, cmp: Comparator, res: CoreResults?, nodes: set<ListHead>,
                     origin: seq<ListHead>, s: seq<ListHead>)
    requires InOrder(keys, origin, s) && Tracks(keys, cmp, res, nodes)
    ensures SortedStably(cmp, origin, s)
    ensures |s| >= 2 ==> AllSettled(cmp, res, s)
  {
    forall i | 0 <= i < |s| && |s| >= 2
      ensures s[i] in keys
    {
      if i > 0 {
        assert Before(keys, origin, s[0], s[i]);
      } else {
        assert Before(keys, origin, s[i], s[1]);
      }
    }
    forall i, j | 0 <= i < j < |s|
      ensures Before(keys, origin, s[i], s[j])
    {
    }
  }
}
