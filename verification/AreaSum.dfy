/** composed_area_from_yosys_stat: the area of a module hierarchy, with memoisation. */
module AreaSum {
  import opened Sequences

  /** A line of the submodule table: how many instances of which module. */
  datatype Submodule = Submodule(count: nat, name: string)

  datatype ModuleStat = ModuleStat(localArea: real, submodules: seq<Submodule>)

  type Modules = map<string, ModuleStat>

  /** removeprefix("\\"): one leading backslash, if there is one. */
  function Key(name: string): string {
    if name != "" && name[0] == '\\' then name[1..] else name
  }

  lemma KeyIs(name: string)
    ensures Key("\\" + name) == name
    ensures name == "" || name[0] != '\\' ==> Key(name) == name
  {
  }

  // ---------- hierarchies without cycles ----------

  /** Key b is a submodule of key a, and both are listed. */
  ghost predicate Edge(modules: Modules, a: string, b: string) {
    a in modules && b in modules &&
    exists i :: 0 <= i < |modules[a].submodules| && Key(modules[a].submodules[i].name) == b
  }

  ghost predicate Path(modules: Modules, p: seq<string>) {
    p != [] && (forall i :: 0 <= i < |p| ==> p[i] in modules) &&
    forall i :: 0 <= i < |p| - 1 ==> Edge(modules, p[i], p[i + 1])
  }

  /** No path from this key comes back to where it has been. Cycles elsewhere do not matter. */
  ghost predicate Acyclic(modules: Modules, key: string) {
    forall p :: Path(modules, p) && p[0] == key ==> NoDup(p)
  }

  ghost predicate HasPath(modules: Modules, key: string, n: nat) {
    exists p :: Path(modules, p) && p[0] == key && |p| == n
  }

  /** The length of the longest path from this key, up to n. */
  ghost function Longest(modules: Modules, key: string, n: nat): (r: nat)
    ensures r <= n && (r > 0 ==> HasPath(modules, key, r))
    ensures forall k :: r < k <= n ==> !HasPath(modules, key, k)
  {
    if n == 0 || HasPath(modules, key, n) then n else Longest(modules, key, n - 1)
  }

  ghost function Rank(modules: Modules, key: string): nat { Longest(modules, key, |modules|) }

  lemma {:induction false} DistinctElements<T>(s: seq<T>, all: set<T>)
    requires NoDup(s) && forall i :: 0 <= i < |s| ==> s[i] in all
    ensures |s| <= |all|
  {
    if s != [] {
      var last := s[|s| - 1];
      DistinctElements(s[..|s| - 1], all - {last});
    }
  }

  /** What is below a listed key has shorter paths, and no cycle either. */
  lemma RankDecreases(modules: Modules, key: string, sub: string)
    requires Acyclic(modules, key) && key in modules
    requires sub !in modules || Edge(modules, key, sub)
    ensures Acyclic(modules, sub) && Rank(modules, sub) < Rank(modules, key)
  {
    hide Edge;
    assert Path(modules, [key]);
    assert |modules.Keys| == |modules| > 0;
    assert HasPath(modules, key, 1);
    if sub in modules {
      forall p | Path(modules, p) && p[0] == sub
        ensures NoDup(p) && |p| < |modules| && HasPath(modules, key, |p| + 1)
      {
        PathFrom(modules, key, p);
      }
    } else {
      assert forall p :: Path(modules, p) ==> p[0] != sub;
    }
  }

  lemma PathFrom(modules: Modules, key: string, p: seq<string>)
    requires Acyclic(modules, key) && Path(modules, p) && Edge(modules, key, p[0])
    ensures NoDup(p) && |p| < |modules| && HasPath(modules, key, |p| + 1)
  {
    hide Edge, NoDup;
    var q := [key] + p;
    assert forall i :: 0 <= i < |q| - 1 ==> Edge(modules, q[i], q[i + 1]) by {
      forall i | 0 <= i < |q| - 1
        ensures Edge(modules, q[i], q[i + 1])
      {
        assert i == 0 || Edge(modules, p[i - 1], p[i]);
      }
    }
    EdgeIsListed(modules, key, p[0]);
    assert Path(modules, q) && q[0] == key;
    DistinctElements(q, modules.Keys);
    RestIsNoDup(q);
    assert q[1..] == p;
  }

  lemma EdgeIsListed(modules: Modules, a: string, b: string)
    requires Edge(modules, a, b)
    ensures a in modules && b in modules
  {
  }

  lemma RestIsNoDup<T>(s: seq<T>)
    requires NoDup(s) && s != []
    ensures NoDup(s[1..])
  {
  }

  /** Submodules without cycles, all with paths shorter than h. */
  ghost predicate Below(modules: Modules, subs: seq<Submodule>, h: nat) {
    forall i :: 0 <= i < |subs| ==> Acyclic(modules, Key(subs[i].name)) && Rank(modules, Key(subs[i].name)) < h
  }

  lemma SubmodulesBelow(modules: Modules, key: string)
    requires Acyclic(modules, key) && key in modules
    ensures Below(modules, modules[key].submodules, Rank(modules, key))
  {
    hide Acyclic, Rank;
    var subs := modules[key].submodules;
    forall i | 0 <= i < |subs|
      ensures Acyclic(modules, Key(subs[i].name)) && Rank(modules, Key(subs[i].name)) < Rank(modules, key)
    {
      RankDecreases(modules, key, Key(subs[i].name));
    }
  }

  /** The area of count instances. */
  function Times(count: nat, area: real): real { count as real * area }

  /** The plain recursion: no memo. A module without a section counts as 0. */
  ghost function Total(modules: Modules, name: string): real
    requires Acyclic(modules, Key(name))
    decreases Rank(modules, Key(name)), 1, 0
  {
    if Key(name) !in modules then 0.0
    else
      SubmodulesBelow(modules, Key(name));
      var stat := modules[Key(name)];
      stat.localArea + TotalOf(modules, stat.submodules, Rank(modules, Key(name)))
  }

  ghost function TotalOf(modules: Modules, subs: seq<Submodule>, h: nat): real
    requires Below(modules, subs, h)
    decreases h, 0, |subs|
  {
    if subs == [] then 0.0
    else
      var rest := subs[..|subs| - 1];
      var last := subs[|subs| - 1];
      TotalOf(modules, rest, h) + Times(last.count, Total(modules, last.name))
  }

  /** The memo of composed_area_from_yosys_stat. */
  class Composer {
    const modules: Modules
    var seen: map<string, real>

    constructor (modules: Modules)
      ensures this.modules == modules && seen == map[]
    {
      this.modules := modules;
      seen := map[];
    }

    /** Every memoised value is the plain total. */
    ghost predicate SeenRight()
      reads this
    {
      forall k :: k in seen ==>
        k in modules && Below(modules, modules[k].submodules, Rank(modules, k)) &&
        seen[k] == modules[k].localArea + TotalOf(modules, modules[k].submodules, Rank(modules, k))
    }

    method Sum(name: string) returns (value: real)
      requires Acyclic(modules, Key(name)) && SeenRight()
      modifies this
      ensures SeenRight() && seen.Keys >= old(seen.Keys)
      ensures value == Total(modules, name)
      decreases Rank(modules, Key(name))
    {
      var key := Key(name);
      if key in seen {
        return seen[key];
      }
      if key !in modules {
        return 0.0;
      }
      SubmodulesBelow(modules, key);
      var stat := modules[key];
      value := stat.localArea;
      ghost var h := Rank(modules, Key(name));
      var i := 0;
      while i < |stat.submodules|
        invariant i <= |stat.submodules| && Below(modules, stat.submodules, h)
        invariant SeenRight() && seen.Keys >= old(seen.Keys)
        invariant value == stat.localArea + TotalOf(modules, stat.submodules[..i], h)
      {
        var sub := stat.submodules[i];
        var area := Sum(sub.name);
        assert stat.submodules[..i + 1][..i] == stat.submodules[..i];
        value := value + Times(sub.count, area);
        i := i + 1;
      }
      assert stat.submodules[..i] == stat.submodules;
      seen := seen[key := value];
    }
  }

  // ---------- area by instance count ----------

  /** How many instances of module m there are under one instance of name: over all paths, the
  counts along the path multiplied. */
  ghost function Instances(modules: Modules, name: string, m: string): nat
    requires Acyclic(modules, Key(name))
    decreases Rank(modules, Key(name)), 1, 0
  {
    if Key(name) !in modules then 0
    else
      SubmodulesBelow(modules, Key(name));
      (if Key(name) == m then 1 else 0) +
         InstancesOf(modules, modules[Key(name)].submodules, Rank(modules, Key(name)), m)
  }

  ghost function InstancesOf(modules: Modules, subs: seq<Submodule>, h: nat, m: string): nat
    requires Below(modules, subs, h)
    decreases h, 0, |subs|
  {
    if subs == [] then 0
    else
      var last := subs[|subs| - 1];
      InstancesOf(modules, subs[..|subs| - 1], h, m) + last.count * Instances(modules, last.name, m)
  }

  /** The sum over the modules in `names` of instances times local area. */
  ghost function Weighted(modules: Modules, names: seq<string>, name: string): real
    requires Acyclic(modules, Key(name)) && forall m :: m in names ==> m in modules
  {
    if names == [] then 0.0
    else Times(Instances(modules, name, names[0]), modules[names[0]].localArea) +
         Weighted(modules, names[1..], name)
  }

  ghost function WeightedOf(modules: Modules, names: seq<string>, subs: seq<Submodule>, h: nat): real
    requires Below(modules, subs, h) && forall m :: m in names ==> m in modules
  {
    if names == [] then 0.0
    else Times(InstancesOf(modules, subs, h, names[0]), modules[names[0]].localArea) +
         WeightedOf(modules, names[1..], subs, h)
  }

  lemma {:induction false} WeightedOfNothing(modules: Modules, names: seq<string>, h: nat)
    requires forall m :: m in names ==> m in modules
    ensures WeightedOf(modules, names, [], h) == 0.0
  {
    if names != [] {
      WeightedOfNothing(modules, names[1..], h);
    }
  }

  lemma Regroup(a: nat, c: nat, b: nat, x: real, w: real, v: real)
    ensures Times(a + c * b, x) + (w + Times(c, v)) == (Times(a, x) + w) + Times(c, Times(b, x) + v)
  {
  }

  lemma TimesZero(c: nat)
    ensures Times(c, 0.0) == 0.0
  {
  }

  lemma OneMore(k: bool, n: nat, x: real)
    ensures Times((if k then 1 else 0) + n, x) == (if k then x else 0.0) + Times(n, x)
    ensures Times(0, x) == 0.0
  {
  }

  /** One more submodule adds its own weighted sum, count times. */
  lemma {:induction false} WeightedOfOneMore(modules: Modules, names: seq<string>,
                                             subs: seq<Submodule>, h: nat)
    requires Below(modules, subs, h) && forall m :: m in names ==> m in modules
    requires subs != []
    ensures var last := subs[|subs| - 1];
      WeightedOf(modules, names, subs, h) ==
      WeightedOf(modules, names, subs[..|subs| - 1], h) + Times(last.count, Weighted(modules, names, last.name))
    decreases |names|
  {
    hide Times, Acyclic, Rank;
    TimesZero(subs[|subs| - 1].count);
    if names != [] {
      var last, rest := subs[|subs| - 1], subs[..|subs| - 1];
      var m, ms := names[0], names[1..];
      WeightedOfOneMore(modules, ms, subs, h);
      Regroup(InstancesOf(modules, rest, h, m), last.count, Instances(modules, last.name, m),
              modules[m].localArea, WeightedOf(modules, ms, rest, h), Weighted(modules, ms, last.name));
    }
  }

  /** A listed module counts once for itself, and then for its submodules. */
  lemma {:induction false} WeightedSelf(modules: Modules, names: seq<string>, name: string)
    requires Acyclic(modules, Key(name)) && NoDup(names) && forall m :: m in names ==> m in modules
    ensures var k := Key(name);
      Weighted(modules, names, name) ==
        if k in modules
        then SubmodulesBelow(modules, k);
             (if k in names then modules[k].localArea else 0.0) +
             WeightedOf(modules, names, modules[k].submodules, Rank(modules, Key(name)))
        else 0.0
    decreases |names|
  {
    hide Times, Acyclic, Rank;
    if Key(name) in modules {
      SubmodulesBelow(modules, Key(name));
    }
    if names != [] {
      var k, m := Key(name), names[0];
      assert forall i :: 0 <= i < |names[1..]| ==> names[1..][i] == names[i + 1];
      WeightedSelf(modules, names[1..], name);
      if k in modules {
        var h := Rank(modules, Key(name));
        OneMore(k == m, InstancesOf(modules, modules[k].submodules, h, m), modules[m].localArea);
      } else {
        OneMore(false, 0, modules[m].localArea);
      }
    }
  }

  /** The composed area is the sum over all modules of instance count times local area. */
  lemma {:induction false} TotalIsWeighted(modules: Modules, names: seq<string>, name: string)
    requires Acyclic(modules, Key(name)) && NoDup(names) && (forall m :: m in names <==> m in modules)
    ensures Total(modules, name) == Weighted(modules, names, name)
    decreases Rank(modules, Key(name)), 1, 0
  {
    hide Acyclic, Rank, Times;
    WeightedSelf(modules, names, name);
    if Key(name) in modules {
      SubmodulesBelow(modules, Key(name));
      TotalOfIsWeighted(modules, names, modules[Key(name)].submodules, Rank(modules, Key(name)));
    }
  }

  lemma {:induction false} TotalOfIsWeighted(modules: Modules, names: seq<string>,
                                             subs: seq<Submodule>, h: nat)
    requires NoDup(names) && (forall m :: m in names <==> m in modules)
    requires Below(modules, subs, h)
    ensures TotalOf(modules, subs, h) == WeightedOf(modules, names, subs, h)
    decreases h, 0, |subs|
  {
    if subs == [] {
      WeightedOfNothing(modules, names, h);
    } else {
      TotalOfIsWeighted(modules, names, subs[..|subs| - 1], h);
      TotalIsWeighted(modules, names, subs[|subs| - 1].name);
      WeightedOfOneMore(modules, names, subs, h);
    }
  }

  /** composed_area_from_yosys_stat, for an enumeration `names` of the listed modules. */
  method ComposedArea(modules: Modules, top: string, ghost names: seq<string>)
    returns (area: real)
    requires Acyclic(modules, Key(top)) && NoDup(names) && (forall m :: m in names <==> m in modules)
    ensures area == Weighted(modules, names, top)
  {
    var composer := new Composer(modules);
    area := composer.Sum(top);
    TotalIsWeighted(modules, names, top);
  }

  // ---------- a hierarchy of three modules ----------

  /** n instances of a in the top module, k instances of b in each of them; names of submodules are escaped. */
  function Nested(t: real, n: nat, a: real, k: nat, b: real): Modules {
    map["top" := ModuleStat(t, [Submodule(n, "\\a")]), "a" := ModuleStat(a, [Submodule(k, "\\b")]),
        "b" := ModuleStat(b, [])]
  }

  lemma NestedEdges(t: real, n: nat, a: real, k: nat, b: real, x: string, y: string)
    requires Edge(Nested(t, n, a, k, b), x, y)
    ensures (x == "top" && y == "a") || (x == "a" && y == "b")
  {
  }

  lemma NestedIsAcyclic(t: real, n: nat, a: real, k: nat, b: real)
    ensures Acyclic(Nested(t, n, a, k, b), "top")
  {
    var modules := Nested(t, n, a, k, b);
    forall p | Path(modules, p) && p[0] == "top"
      ensures NoDup(p)
    {
      hide Edge, Nested;
      NestedStep(t, n, a, k, b, p, 0);
      NestedStep(t, n, a, k, b, p, 1);
      NestedStep(t, n, a, k, b, p, 2);
      assert |p| <= 3;
    }
  }

  lemma NestedStep(t: real, n: nat, a: real, k: nat, b: real, p: seq<string>, i: nat)
    requires Path(Nested(t, n, a, k, b), p)
    ensures i + 1 < |p| ==> (p[i] == "top" && p[i + 1] == "a") || (p[i] == "a" && p[i + 1] == "b")
  {
    hide Edge, Nested;
    if i + 1 < |p| {
      NestedEdges(t, n, a, k, b, p[i], p[i + 1]);
    }
  }

  lemma NestedKeys()
    ensures Key("top") == "top" && Key("\\a") == "a" && Key("\\b") == "b"
  {
  }

  lemma OneSubmodule(modules: Modules, sub: Submodule, h: nat)
    requires Below(modules, [sub], h)
    ensures Acyclic(modules, Key(sub.name))
    ensures TotalOf(modules, [sub], h) == sub.count as real * Total(modules, sub.name)
  {
  }

  /** Its area: every instance of b counts, also those in several instances of a. */
  lemma NestedArea(t: real, n: nat, a: real, k: nat, b: real)
    ensures Acyclic(Nested(t, n, a, k, b), Key("top"))
    ensures Total(Nested(t, n, a, k, b), "top") == t + n as real * (a + k as real * b)
  {
    var modules := Nested(t, n, a, k, b);
    NestedKeys();
    NestedIsAcyclic(t, n, a, k, b);
    hide Acyclic, Rank, Key;
    SubmodulesBelow(modules, "top");
    assert modules["top"].submodules[0].name == "\\a";
    SubmodulesBelow(modules, "a");
    assert modules["a"].submodules[0].name == "\\b";
    SubmodulesBelow(modules, "b");
    OneSubmodule(modules, Submodule(n, "\\a"), Rank(modules, "top"));
    OneSubmodule(modules, Submodule(k, "\\b"), Rank(modules, "a"));
    hide TotalOf;
    assert Total(modules, "\\b") == b + TotalOf(modules, [], Rank(modules, "b"));
    assert Total(modules, "\\a") == a + k as real * Total(modules, "\\b");
  }
}
