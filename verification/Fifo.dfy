/** The FIFO of ct_fifo_gold.v: a one-hot create pointer, a wrapping pop pointer and one valid
bit per entry. From reset, it is a queue of capacity DEPTH. */
module Fifo {

  datatype Inputs<+D> = Inputs(createEn: bool, createEnDp: bool, popEn: bool, createData: D)

  /** The registers; bit 0 of a vector is its first element. */
  datatype State<+D> = State(createPtr: seq<bool>, popPtr: nat, vld: seq<bool>, cont: seq<D>)

  function Pow2(n: nat): (p: nat)
    ensures p > 0
  {
    if n == 0 then 1 else 2 * Pow2(n - 1)
  }

  datatype Params = Params(depth: nat, ptrW: nat) {
    /** What the module needs of its parameters. */
    predicate Valid() { 2 <= depth <= Pow2(ptrW) }
  }

  predicate Shaped<D>(p: Params, s: State<D>) {
    |s.createPtr| == |s.vld| == |s.cont| == p.depth && s.popPtr < Pow2(p.ptrW + 1)
  }

  function Reset<D>(p: Params, zero: D): (s: State<D>)
    requires p.Valid()
    ensures Shaped(p, s)
  {
    State(seq(p.depth, k => k == 0), 0, seq(p.depth, _ => false), seq(p.depth, _ => zero))
  }

  /** The low bits of the pop pointer, which select the entry. */
  function PopIndex<D>(p: Params, s: State<D>): nat { s.popPtr % Pow2(p.ptrW) }

  predicate Full<D>(s: State<D>) { forall k :: 0 <= k < |s.vld| ==> s.vld[k] }

  predicate Empty<D>(s: State<D>) { forall k :: 0 <= k < |s.vld| ==> !s.vld[k] }

  function NextPopPtr(p: Params, popPtr: nat): nat {
    if popPtr % Pow2(p.ptrW) == p.depth - 1 then 0 else (popPtr + 1) % Pow2(p.ptrW + 1)
  }

  /** One rising edge of the clock. */
  function Step<D>(p: Params, s: State<D>, i: Inputs<D>): (s': State<D>)
    requires p.Valid() && Shaped(p, s)
    ensures Shaped(p, s')
  {
    var n := p.depth;
    State(
      if i.createEn then [s.createPtr[n - 1]] + s.createPtr[..n - 1] else s.createPtr,
      if i.popEn then NextPopPtr(p, s.popPtr) else s.popPtr,
      seq(n, k requires 0 <= k < n =>
        if i.createEn && s.createPtr[k] then true
        else if i.popEn && k == PopIndex(p, s) then false
        else s.vld[k]),
      seq(n, k requires 0 <= k < n => if i.createEnDp && s.createPtr[k] then i.createData else s.cont[k]))
  }

  function Run<D>(p: Params, s: State<D>, trace: seq<Inputs<D>>): (s': State<D>)
    requires p.Valid() && Shaped(p, s)
    ensures Shaped(p, s')
    decreases |trace|
  {
    if trace == [] then s else Run(p, Step(p, s, trace[0]), trace[1..])
  }

  // ---------- the queue ----------

  function QueueStep<D>(q: seq<D>, i: Inputs<D>): seq<D> {
    (if i.popEn && q != [] then q[1..] else q) + (if i.createEn then [i.createData] else [])
  }

  function QueueRun<D>(q: seq<D>, trace: seq<Inputs<D>>): seq<D>
    decreases |trace|
  {
    if trace == [] then q else QueueRun(QueueStep(q, trace[0]), trace[1..])
  }

  /** How far entry k is behind entry h, around the circle of n entries. */
  function Behind(n: nat, h: nat, k: nat): nat
    requires h < n && k < n
  {
    if k >= h then k - h else k + n - h
  }

  /** An entry d behind the pop pointer is valid, and holds element d, while there is one; the
  create pointer is at the entry behind the last. */
  ghost predicate EntryHolds<D>(n: nat, d: nat, q: seq<D>, created: bool, vld: bool, cont: D) {
    (vld <==> d < |q|) && (d < |q| ==> cont == q[d]) && (created <==> d == if |q| == n then 0 else |q|)
  }

  /** The registers hold q: the valid bits are the window of |q| entries from the pop pointer
  on, the window holds q, and the create pointer is one-hot at the entry behind it. */
  ghost predicate Holds<D>(p: Params, s: State<D>, q: seq<D>) {
    Shaped(p, s) && p.Valid() && s.popPtr < p.depth && |q| <= p.depth &&
    forall k :: 0 <= k < p.depth ==>
      EntryHolds(p.depth, Behind(p.depth, s.popPtr, k), q, s.createPtr[k], s.vld[k], s.cont[k])
  }

  /** What the surrounding logic must respect. */
  predicate Legal<D>(s: State<D>, i: Inputs<D>) {
    (i.createEn ==> i.createEnDp) && (i.popEn ==> !Empty(s)) && (i.createEnDp && Full(s) ==> i.popEn)
  }

  predicate LegalRun<D>(p: Params, s: State<D>, trace: seq<Inputs<D>>)
    requires p.Valid() && Shaped(p, s)
    decreases |trace|
  {
    trace == [] || (Legal(s, trace[0]) && LegalRun(p, Step(p, s, trace[0]), trace[1..]))
  }

  function OneHotAt(s: seq<bool>, k: nat): bool
    requires k < |s|
  {
    s[k] && forall j :: 0 <= j < |s| && j != k ==> !s[j]
  }

  /** The entry that is d behind entry h. */
  function Slot(n: nat, h: nat, d: nat): (k: nat)
    requires h < n && d < n
    ensures k < n && Behind(n, h, k) == d
  {
    if h + d < n then h + d else h + d - n
  }

  lemma SmallMod(a: nat, b: nat)
    requires a < b
    ensures a % b == a
  {
  }

  /** What the outputs say about the queue. */
  lemma Outputs<D>(p: Params, s: State<D>, q: seq<D>)
    requires Holds(p, s, q)
    ensures Full(s) <==> |q| == p.depth
    ensures Empty(s) <==> q == []
    ensures PopIndex(p, s) < p.depth && (q != [] ==> s.cont[PopIndex(p, s)] == q[0])
    ensures exists k :: 0 <= k < p.depth && OneHotAt(s.createPtr, k)
  {
    SmallMod(s.popPtr, Pow2(p.ptrW));
    assert Behind(p.depth, s.popPtr, s.popPtr) == 0;
    if |q| < p.depth {
      assert !s.vld[Slot(p.depth, s.popPtr, |q|)];
    }
    CreatePointerIsOneHot(p, s, q);
  }

  lemma CreatePointerIsOneHot<D>(p: Params, s: State<D>, q: seq<D>)
    requires Holds(p, s, q)
    ensures OneHotAt(s.createPtr, Slot(p.depth, s.popPtr, if |q| == p.depth then 0 else |q|))
  {
  }

  lemma PopPointerAdvances(p: Params, popPtr: nat)
    requires p.Valid() && popPtr < p.depth
    ensures NextPopPtr(p, popPtr) == if popPtr == p.depth - 1 then 0 else popPtr + 1
  {
    SmallMod(popPtr, Pow2(p.ptrW));
    if popPtr < p.depth - 1 {
      SmallMod(popPtr + 1, Pow2(p.ptrW + 1));
    }
  }

  /** The neighbour before k on the circle of n. */
  function Prev(n: nat, k: nat): nat
    requires k < n
  {
    if k == 0 then n - 1 else k - 1
  }

  function Next(n: nat, h: nat): nat
    requires h < n
  {
    if h == n - 1 then 0 else h + 1
  }

  /** Moving the pop pointer on, or looking one entry back, comes one closer. */
  lemma Closer(n: nat, h: nat, k: nat)
    requires h < n && k < n
    ensures Behind(n, Next(n, h), k) == Prev(n, Behind(n, h, k)) == Behind(n, h, Prev(n, k))
  {
  }

  lemma EntryStep<D>(n: nat, d: nat, q: seq<D>, i: Inputs<D>, created: bool, vld: bool, cont: D, createdBefore: bool)
    requires d < n && |q| <= n && EntryHolds(n, d, q, created, vld, cont)
    requires createdBefore <==> Prev(n, d) == if |q| == n then 0 else |q|
    requires (i.createEn ==> i.createEnDp) && (i.popEn ==> q != []) && (i.createEnDp && |q| == n ==> i.popEn)
    ensures |QueueStep(q, i)| <= n
    ensures EntryHolds(n, if i.popEn then Prev(n, d) else d, QueueStep(q, i),
                       if i.createEn then createdBefore else created,
                       if i.createEn && created then true else if i.popEn && d == 0 then false else vld,
                       if i.createEnDp && created then i.createData else cont)
  {
  }

  /** Every legal clock edge is the corresponding step of the queue, also when an entry is
  taken out and another put in at once while the queue is full. */
  lemma StepHolds<D>(p: Params, s: State<D>, q: seq<D>, i: Inputs<D>)
    requires Holds(p, s, q) && Legal(s, i)
    ensures Holds(p, Step(p, s, i), QueueStep(q, i))
  {
    Outputs(p, s, q);
    hide Pow2, NextPopPtr, PopIndex, QueueStep, Full, Empty, EntryHolds, Behind, Step, Prev, Next;
    var n, h, s', q' := p.depth, s.popPtr, Step(p, s, i), QueueStep(q, i);
    forall k | 0 <= k < n
      ensures |q'| <= n && s'.popPtr == (if i.popEn then Next(n, h) else h)
      ensures EntryHolds(n, Behind(n, if i.popEn then Next(n, h) else h, k), q', s'.createPtr[k], s'.vld[k], s'.cont[k])
    {
      Closer(n, h, k);
      BehindZero(n, h, k);
      var before := Prev(n, k);
      StepAt(p, s, i, k);
      CreatedAt(n, Behind(n, h, before), q, s.createPtr[before], s.vld[before], s.cont[before]);
      EntryStep(n, Behind(n, h, k), q, i, s.createPtr[k], s.vld[k], s.cont[k], s.createPtr[before]);
    }
    assert s'.popPtr == if i.popEn then Next(n, h) else h by { StepAt(p, s, i, 0); }
    assert |q'| <= n by { assert 0 <= 0 < n; }
  }

  /** The registers of entry k after a clock edge. */
  lemma StepAt<D>(p: Params, s: State<D>, i: Inputs<D>, k: nat)
    requires p.Valid() && Shaped(p, s) && s.popPtr < p.depth && k < p.depth
    ensures var s', n := Step(p, s, i), p.depth;
      && s'.popPtr == (if i.popEn then Next(n, s.popPtr) else s.popPtr) && s'.popPtr < n
      && s'.createPtr[k] == (if i.createEn then s.createPtr[Prev(n, k)] else s.createPtr[k])
      && s'.vld[k] == (if i.createEn && s.createPtr[k] then true
                       else if i.popEn && k == s.popPtr then false else s.vld[k])
      && s'.cont[k] == (if i.createEnDp && s.createPtr[k] then i.createData else s.cont[k])
  {
    PopPointerAdvances(p, s.popPtr);
    SmallMod(s.popPtr, Pow2(p.ptrW));
    hide Pow2, NextPopPtr;
  }

  lemma BehindZero(n: nat, h: nat, k: nat)
    requires h < n && k < n
    ensures Behind(n, h, k) < n && (Behind(n, h, k) == 0 <==> k == h)
  {
  }

  lemma CreatedAt<D>(n: nat, d: nat, q: seq<D>, created: bool, vld: bool, cont: D)
    requires EntryHolds(n, d, q, created, vld, cont)
    ensures created <==> d == if |q| == n then 0 else |q|
  {
  }

  /** From any state that holds a queue, and so from reset. */
  lemma {:induction false} RunHolds<D>(p: Params, s: State<D>, q: seq<D>, trace: seq<Inputs<D>>)
    requires Holds(p, s, q) && LegalRun(p, s, trace)
    ensures Holds(p, Run(p, s, trace), QueueRun(q, trace))
    decreases |trace|
  {
    if trace != [] {
      StepHolds(p, s, q, trace[0]);
      RunHolds(p, Step(p, s, trace[0]), QueueStep(q, trace[0]), trace[1..]);
    }
  }

  /** The FIFO refines the queue: after every legal run from reset, for every depth. */
  lemma RefinesQueue<D>(p: Params, zero: D, trace: seq<Inputs<D>>)
    requires p.Valid() && LegalRun(p, Reset(p, zero), trace)
    ensures var s, q := Run(p, Reset(p, zero), trace), QueueRun([], trace);
      && Holds(p, s, q)
      && (Full(s) <==> |q| == p.depth) && (Empty(s) <==> q == [])
      && PopIndex(p, s) < p.depth && (q != [] ==> s.cont[PopIndex(p, s)] == q[0])
      && exists k :: 0 <= k < p.depth && OneHotAt(s.createPtr, k)
  {
    RunHolds(p, Reset(p, zero), [], trace);
    Outputs(p, Run(p, Reset(p, zero), trace), QueueRun([], trace));
  }

  /** The three conditions are exact: an edge is a queue step whatever the data if and only if
  it is legal. */
  lemma LegalIsExact(p: Params, s: State<int>, q: seq<int>, i: Inputs<int>)
    requires Holds(p, s, q)
    ensures Legal(s, i) <==>
            forall data: int :: Holds(p, Step(p, s, i.(createData := data)), QueueStep(q, i.(createData := data)))
  {
    Outputs(p, s, q);
    if Legal(s, i) {
      forall data: int
        ensures Holds(p, Step(p, s, i.(createData := data)), QueueStep(q, i.(createData := data)))
      {
        StepHolds(p, s, q, i.(createData := data));
      }
    } else {
      var t := Slot(p.depth, s.popPtr, if |q| == p.depth then 0 else |q|);
      IllegalStep(p, s, q, i.(createData := s.cont[t] + 1));
    }
  }

  /** An illegal edge with data that differs from what the create pointer's entry holds. */
  lemma IllegalStep(p: Params, s: State<int>, q: seq<int>, i: Inputs<int>)
    requires Holds(p, s, q) && !Legal(s, i)
    requires i.createData == s.cont[Slot(p.depth, s.popPtr, if |q| == p.depth then 0 else |q|)] + 1
    ensures !Holds(p, Step(p, s, i), QueueStep(q, i))
  {
    Outputs(p, s, q);
    var n, h, q' := p.depth, s.popPtr, QueueStep(q, i);
    var t := Slot(n, h, if |q| == n then 0 else |q|);
    var k := if i.popEn && q == [] && i.createEn then Next(n, h) else t;
    hide Pow2, Full, Empty, Step;
    assert s.createPtr[t] && !s.createPtr[Prev(n, t)];
    StepAt(p, s, i, k);
    Closer(n, h, k);
    if |q'| <= n {
      assert !EntryHolds(n, Behind(n, Step(p, s, i).popPtr, k), q', Step(p, s, i).createPtr[k],
                         Step(p, s, i).vld[k], Step(p, s, i).cont[k]);
    }
  }

  // ---------- clock gating ----------

  /** The control registers behind a clock that is gated by ctrl_clk_en, and each entry behind
  one gated by its own create signal; module_en is fifo_icg_en. */
  function GatedStep<D>(p: Params, s: State<D>, i: Inputs<D>, icgEn: bool): State<D>
    requires p.Valid() && Shaped(p, s)
  {
    var next := Step(p, s, i);
    var control := if icgEn || i.createEnDp || !Empty(s) then next else s;
    State(control.createPtr, control.popPtr, control.vld,
          seq(p.depth, k requires 0 <= k < p.depth =>
            if icgEn || (i.createEnDp && s.createPtr[k]) then next.cont[k] else s.cont[k]))
  }

  /** A real clock gate changes a step exactly when it stops a clock that something needs. */
  lemma GatingIsExact<D>(p: Params, s: State<D>, q: seq<D>, i: Inputs<D>, icgEn: bool)
    requires Holds(p, s, q)
    ensures GatedStep(p, s, i, icgEn) == Step(p, s, i)
            <==> icgEn || i.createEnDp || q != [] || (!i.createEn && !i.popEn)
  {
    Outputs(p, s, q);
    var g, u := GatedStep(p, s, i, icgEn), Step(p, s, i);
    assert g.cont == u.cont;
    if q == [] && !icgEn && !i.createEnDp {
      PopPointerAdvances(p, s.popPtr);
      var t := Slot(p.depth, s.popPtr, 0);
      StepAt(p, s, i, t);
      assert s.createPtr[t] && !s.createPtr[Prev(p.depth, t)];
      if !i.createEn && !i.popEn {
        assert u.vld == s.vld;
      }
    }
  }

  function GatedRun<D>(p: Params, s: State<D>, trace: seq<(Inputs<D>, bool)>): State<D>
    requires p.Valid() && Shaped(p, s)
    decreases |trace|
  {
    if trace == [] then s else GatedRun(p, GatedStep(p, s, trace[0].0, trace[0].1), trace[1..])
  }

  function InputsOf<D>(trace: seq<(Inputs<D>, bool)>): (t: seq<Inputs<D>>)
    ensures |t| == |trace|
  {
    if trace == [] then [] else [trace[0].0] + InputsOf(trace[1..])
  }

  /** Creating comes with its data enable, and nothing is taken from an empty FIFO. A write into a full FIFO is
  not excluded. */
  predicate Clocked<D>(s: State<D>, i: Inputs<D>) {
    (i.createEn ==> i.createEnDp) && (i.popEn ==> !Empty(s))
  }

  predicate ClockedRun<D>(p: Params, s: State<D>, trace: seq<Inputs<D>>)
    requires p.Valid() && Shaped(p, s)
    decreases |trace|
  {
    trace == [] || (Clocked(s, trace[0]) && ClockedRun(p, Step(p, s, trace[0]), trace[1..]))
  }

  /** Then the gates stop no clock that anything needs, whatever the registers hold. */
  lemma ClockedStep<D>(p: Params, s: State<D>, i: Inputs<D>, icgEn: bool)
    requires p.Valid() && Shaped(p, s) && Clocked(s, i)
    ensures GatedStep(p, s, i, icgEn) == Step(p, s, i)
  {
    var g, u := GatedStep(p, s, i, icgEn), Step(p, s, i);
    assert g.cont == u.cont;
    if !i.createEn && !i.popEn {
      assert u.vld == s.vld;
    }
  }

  /** No such run notices the gates, from any state and whatever fifo_icg_en does. */
  lemma {:induction false} GatingInvisible<D>(p: Params, s: State<D>, trace: seq<(Inputs<D>, bool)>)
    requires p.Valid() && Shaped(p, s) && ClockedRun(p, s, InputsOf(trace))
    ensures GatedRun(p, s, trace) == Run(p, s, InputsOf(trace))
    decreases |trace|
  {
    if trace != [] {
      var i := trace[0].0;
      assert InputsOf(trace)[0] == i && InputsOf(trace)[1..] == InputsOf(trace[1..]);
      ClockedStep(p, s, i, trace[0].1);
      GatingInvisible(p, Step(p, s, i), trace[1..]);
    }
  }

  // ---------- what goes in comes out ----------

  function Created<D>(trace: seq<Inputs<D>>): seq<D> {
    if trace == [] then [] else (if trace[0].createEn then [trace[0].createData] else []) + Created(trace[1..])
  }

  /** The pop data seen on the output whenever an entry is taken. */
  function Popped<D>(p: Params, s: State<D>, trace: seq<Inputs<D>>): seq<D>
    requires p.Valid() && Shaped(p, s)
    decreases |trace|
  {
    if trace == [] then []
    else (if trace[0].popEn && PopIndex(p, s) < p.depth then [s.cont[PopIndex(p, s)]] else []) +
         Popped(p, Step(p, s, trace[0]), trace[1..])
  }

  /** Nothing is lost, duplicated or reordered. */
  lemma {:induction false} FirstInFirstOut<D>(p: Params, s: State<D>, q: seq<D>, trace: seq<Inputs<D>>)
    requires Holds(p, s, q) && LegalRun(p, s, trace)
    ensures q + Created(trace) == Popped(p, s, trace) + QueueRun(q, trace)
    ensures Holds(p, Run(p, s, trace), QueueRun(q, trace))
    decreases |trace|
  {
    if trace != [] {
      var i, q' := trace[0], QueueStep(q, trace[0]);
      Outputs(p, s, q);
      StepHolds(p, s, q, i);
      FirstInFirstOut(p, Step(p, s, i), q', trace[1..]);
      var created := if i.createEn then [i.createData] else [];
      var popped := if i.popEn then [q[0]] else [];
      PopThenPush(q, i);
      Regroup(q, created, Created(trace[1..]), popped, q', Popped(p, Step(p, s, i), trace[1..]),
              QueueRun(q', trace[1..]));
    }
  }

  lemma PopThenPush<D>(q: seq<D>, i: Inputs<D>)
    requires i.popEn ==> q != []
    ensures (if i.popEn then [q[0]] else []) + QueueStep(q, i) == q + if i.createEn then [i.createData] else []
  {
  }

  lemma Regroup<D>(q: seq<D>, created: seq<D>, rest: seq<D>, popped: seq<D>, q': seq<D>, poppedRest: seq<D>,
                   final: seq<D>)
    requires popped + q' == q + created && q' + rest == poppedRest + final
    ensures q + (created + rest) == (popped + poppedRest) + final
  {
    assert q + (created + rest) == (q + created) + rest;
    assert (popped + q') + rest == popped + (q' + rest);
    assert popped + (poppedRest + final) == (popped + poppedRest) + final;
  }

  lemma StepEntry<D>(p: Params, s: State<D>, i: Inputs<D>, k: nat)
    requires p.Valid() && Shaped(p, s) && k < p.depth
    ensures Step(p, s, i).vld[k] == if i.createEn && s.createPtr[k] then true
                                    else if i.popEn && k == PopIndex(p, s) then false else s.vld[k]
    ensures Step(p, s, i).cont[k] == if i.createEnDp && s.createPtr[k] then i.createData else s.cont[k]
  {
  }

  lemma StepPointers<D>(p: Params, s: State<D>, i: Inputs<D>)
    requires p.Valid() && Shaped(p, s)
    ensures Step(p, s, i).createPtr ==
            if i.createEn then [s.createPtr[p.depth - 1]] + s.createPtr[..p.depth - 1] else s.createPtr
    ensures Step(p, s, i).popPtr == if i.popEn then NextPopPtr(p, s.popPtr) else s.popPtr
  {
  }

  // ---------- the module ----------

  /** ct_fifo_gold: PosEdge is what its always blocks do on a rising clock edge. */
  class CtFifo<D> {
    const params: Params
    var createPtr: seq<bool>
    var popPtr: nat
    var entryVld: seq<bool>
    var entryCont: seq<D>

    function Registers(): State<D>
      reads this
    {
      State(createPtr, popPtr, entryVld, entryCont)
    }

    ghost predicate Valid()
      reads this
    {
      params.Valid() && Shaped(params, Registers())
    }

    constructor (params: Params, zero: D)
      requires params.Valid()
      ensures Valid() && this.params == params && Registers() == Reset(params, zero)
    {
      this.params := params;
      createPtr := seq(params.depth, k => k == 0);
      popPtr := 0;
      entryVld := seq(params.depth, _ => false);
      entryCont := seq(params.depth, _ => zero);
    }

    method PosEdge(i: Inputs<D>)
      requires Valid()
      modifies this
      ensures Valid() && Registers() == Step(params, old(Registers()), i)
    {
      hide Pow2, Step;
      var n := params.depth;
      var nextCreatePtr, nextPopPtr := createPtr, popPtr;
      if i.createEn {
        nextCreatePtr := [createPtr[n - 1]] + createPtr[..n - 1];
      }
      if i.popEn && popPtr % Pow2(params.ptrW) == n - 1 {
        nextPopPtr := 0;
      } else if i.popEn {
        nextPopPtr := (popPtr + 1) % Pow2(params.ptrW + 1);
      }
      var nextVld, nextCont := [], [];
      ghost var s := Registers();
      ghost var next := Step(params, s, i);
      for k := 0 to n
        invariant Registers() == s && |nextVld| == |nextCont| == k
        invariant forall j :: 0 <= j < k ==> nextVld[j] == next.vld[j] && nextCont[j] == next.cont[j]
      {
        var vld, cont := entryVld[k], entryCont[k];
        if i.createEn && createPtr[k] {
          vld := true;
        } else if i.popEn && popPtr % Pow2(params.ptrW) == k {
          vld := false;
        }
        if i.createEnDp && createPtr[k] {
          cont := i.createData;
        }
        StepEntry(params, s, i, k);
        nextVld, nextCont := nextVld + [vld], nextCont + [cont];
      }
      StepPointers(params, s, i);
      assert nextVld == next.vld && nextCont == next.cont;
      createPtr, popPtr, entryVld, entryCont := nextCreatePtr, nextPopPtr, nextVld, nextCont;
    }
  }
}
