/** The order that core_list_mergesort builds up, as facts about plain sequences.

`keys` holds the sort key of every element whose key is settled; an element that has not
been compared yet has none. `origin` is the order before the sort: ties are broken by it,
so a sequence in this order is both sorted and stable. */
module MergeOrder {
  import opened Sequences

  predicate Before<T(==)>(keys: map<T, int>, origin: seq<T>, x: T, y: T) {
    x in keys && y in keys &&
    (keys[x] < keys[y] || (keys[x] == keys[y] && IndexOf(origin, x) < IndexOf(origin, y)))
  }

  /** A run in order. A single element needs no key. */
  ghost predicate InOrder<T>(keys: map<T, int>, origin: seq<T>, s: seq<T>) {
    forall i, j :: 0 <= i < j < |s| ==> Before(keys, origin, s[i], s[j])
  }

  /** More keys have been settled; none has changed. */
  ghost predicate Extends<T>(keys: map<T, int>, keys': map<T, int>) {
    forall x :: x in keys ==> x in keys' && keys'[x] == keys[x]
  }

  ghost predicate Earlier<T>(origin: seq<T>, a: seq<T>, b: seq<T>) {
    forall x, y :: x in a && y in b ==> IndexOf(origin, x) < IndexOf(origin, y)
  }

  /** What a pass of width w starts from: runs in order, all of them w long but the last,
  each made of elements that come before those of later runs in the original list. */
  ghost predicate Runs<T>(keys: map<T, int>, origin: seq<T>, w: nat, runs: seq<seq<T>>) {
    (forall i :: 0 <= i < |runs| ==> 1 <= |runs[i]| <= w && InOrder(keys, origin, runs[i])) &&
    (forall i :: 0 <= i < |runs| - 1 ==> |runs[i]| == w) &&
    (forall i, j :: 0 <= i < j < |runs| ==> Earlier(origin, runs[i], runs[j]))
  }

  lemma RunsExtend<T>(keys: map<T, int>, keys': map<T, int>, origin: seq<T>, w: nat, runs: seq<seq<T>>)
    requires Runs(keys, origin, w, runs) && Extends(keys, keys')
    ensures Runs(keys', origin, w, runs)
  {
  }

  /** One step of a merge. `merged` precedes both what is left of one run (a) and what is left
  of the other (b); if the head of a is before the head of b, it may be moved over. */
  lemma MergeStep<T>(keys: map<T, int>, origin: seq<T>, merged: seq<T>, a: seq<T>, b: seq<T>)
    requires InOrder(keys, origin, merged + a) && InOrder(keys, origin, merged + b)
    requires a != [] && (b != [] ==> Before(keys, origin, a[0], b[0]))
    ensures InOrder(keys, origin, (merged + [a[0]]) + a[1..])
    ensures InOrder(keys, origin, (merged + [a[0]]) + b)
  {
    assert (merged + [a[0]]) + a[1..] == merged + a;
    var s := (merged + [a[0]]) + b;
    forall i, j | 0 <= i < j < |s|
      ensures Before(keys, origin, s[i], s[j])
    {
      var m := |merged|;
      if j < m {
        assert s[i] == (merged + b)[i] && s[j] == (merged + b)[j];
      } else if j == m {
        assert s[i] == (merged + a)[i] && s[j] == (merged + a)[j];
      } else if i < m {
        assert s[i] == (merged + b)[i] && s[j] == (merged + b)[j - 1];
      } else if i == m {
        assert b[0] == (merged + b)[m] && s[j] == (merged + b)[j - 1];
        assert Before(keys, origin, a[0], b[0]);
        assert j - 1 == m || Before(keys, origin, (merged + b)[m], (merged + b)[j - 1]);
      } else {
        assert s[i] == (merged + b)[i - 1] && s[j] == (merged + b)[j - 1];
      }
    }
  }

  /** Singletons are the runs of the first pass. */
  lemma SingletonRuns<T>(keys: map<T, int>, s: seq<T>)
    requires NoDup(s)
    ensures Runs(keys, s, 1, Singletons(s))
    ensures Flatten(Singletons(s)) == s
  {
    hide IndexOf, Earlier, Before, Flatten, NoDup;
    FlattenSingletons(s);
    var runs := Singletons(s);
    forall i, j | 0 <= i < j < |runs|
      ensures Earlier(s, runs[i], runs[j])
    {
      SingletonsInOrder(s, i, j);
    }
  }

  lemma SingletonsInOrder<T>(s: seq<T>, i: nat, j: nat)
    requires NoDup(s) && i < j < |s|
    ensures Earlier(s, [s[i]], [s[j]])
  {
  }

  function Singletons<T>(s: seq<T>): (runs: seq<seq<T>>)
    ensures |runs| == |s| && forall i :: 0 <= i < |s| ==> runs[i] == [s[i]]
  {
    if s == [] then [] else [[s[0]]] + Singletons(s[1..])
  }

  lemma {:induction false} FlattenSingletons<T>(s: seq<T>)
    ensures Flatten(Singletons(s)) == s
  {
    if s != [] {
      FlattenSingletons(s[1..]);
      assert Singletons(s)[1..] == Singletons(s[1..]);
    }
  }

  /** The number of runs is the length over the width, rounded up. */
  lemma {:induction false} RunCount<T>(keys: map<T, int>, origin: seq<T>, w: nat, runs: seq<seq<T>>)
    requires Runs(keys, origin, w, runs) && runs != []
    ensures (|runs| - 1) * w < |Flatten(runs)| <= |runs| * w
  {
    hide InOrder, Earlier;
    if |runs| == 1 {
      assert Flatten(runs) == runs[0] + Flatten(runs[1..]);
    } else {
      var rest := runs[1..];
      assert Runs(keys, origin, w, rest);
      RunCount(keys, origin, w, rest);
      assert Flatten(runs) == runs[0] + Flatten(rest);
      assert (|runs| - 1) * w == (|rest| - 1) * w + w && |runs| * w == |rest| * w + w;
    }
  }

  /** Appending the merge of two neighbouring runs to the runs of twice the width. */
  lemma AppendRun<T>(keys: map<T, int>, origin: seq<T>, w: nat, done: seq<seq<T>>, run: seq<T>)
    requires Runs(keys, origin, w, done) && (forall i :: 0 <= i < |done| ==> |done[i]| == w)
    requires 1 <= |run| <= w && InOrder(keys, origin, run)
    requires forall i :: 0 <= i < |done| ==> Earlier(origin, done[i], run)
    ensures Runs(keys, origin, w, done + [run])
  {
  }

  /** There is only one order: sorted and stable determine the result. */
  lemma {:induction false} OrderUnique<T>(keys: map<T, int>, origin: seq<T>, s: seq<T>, t: seq<T>)
    requires InOrder(keys, origin, s) && InOrder(keys, origin, t)
    requires multiset(s) == multiset(t)
    ensures s == t
  {
    assert |s| == |multiset(s)| == |multiset(t)| == |t|;
    if s != [] {
      SameFirst(keys, origin, s, t);
      assert InOrder(keys, origin, s[1..]) && InOrder(keys, origin, t[1..]);
      hide InOrder;
      MultisetOfRest(s);
      MultisetOfRest(t);
      OrderUnique(keys, origin, s[1..], t[1..]);
    }
  }

  lemma MultisetOfRest<T>(s: seq<T>)
    requires s != []
    ensures multiset(s[1..]) == multiset(s) - multiset{s[0]}
  {
    assert s == [s[0]] + s[1..];
  }

  lemma SameFirst<T>(keys: map<T, int>, origin: seq<T>, s: seq<T>, t: seq<T>)
    requires InOrder(keys, origin, s) && InOrder(keys, origin, t)
    requires multiset(s) == multiset(t) && s != [] && t != []
    ensures s[0] == t[0]
  {
    assert s[0] in multiset(t) && t[0] in multiset(s);
    var i :| 0 <= i < |t| && t[i] == s[0];
    var j :| 0 <= j < |s| && s[j] == t[0];
    if i != 0 && j != 0 {
      assert false;
    }
  }
}
