/** The recoded FIFO of ct_fifo_gate_candidate.v: two entries, one-bit indices. It is the gold
FIFO, register for register, on every trace. */
module FifoGate {
  import opened Fifo

  const TWO_ENTRIES := Params(2, 1)

  datatype GateState<+D> = GateState(createIdx: bool, popIdx: bool, vld0: bool, vld1: bool, cont0: D, cont1: D)

  function GateReset<D>(zero: D): GateState<D> { GateState(false, false, false, false, zero, zero) }

  /** The decoded pointers, bit 0 first. */
  function Decode(idx: bool): seq<bool> { if idx then [false, true] else [true, false] }

  function NextVld(create: bool, pop: bool, vld: bool): bool {
    if create then true else if pop then false else vld
  }

  function GateStep<D>(s: GateState<D>, i: Inputs<D>): GateState<D> {
    var create, pop := Decode(s.createIdx), Decode(s.popIdx);
    GateState(
      if i.createEn then !s.createIdx else s.createIdx,
      if i.popEn then !s.popIdx else s.popIdx,
      NextVld(i.createEn && create[0], i.popEn && pop[0], s.vld0),
      NextVld(i.createEn && create[1], i.popEn && pop[1], s.vld1),
      if i.createEnDp && create[0] then i.createData else s.cont0,
      if i.createEnDp && create[1] then i.createData else s.cont1)
  }

  function GateRun<D>(s: GateState<D>, trace: seq<Inputs<D>>): GateState<D>
    decreases |trace|
  {
    if trace == [] then s else GateRun(GateStep(s, trace[0]), trace[1..])
  }

  /** The relation that the miter asserts between the two register files. */
  predicate SameRegisters<D(==)>(gold: State<D>, gate: GateState<D>) {
    gold.createPtr == Decode(gate.createIdx) && gold.popPtr == (if gate.popIdx then 1 else 0) &&
    gold.vld == [gate.vld0, gate.vld1] && gold.cont == [gate.cont0, gate.cont1]
  }

  lemma SameRegistersStep<D>(gold: State<D>, gate: GateState<D>, i: Inputs<D>)
    requires SameRegisters(gold, gate)
    ensures Shaped(TWO_ENTRIES, gold) && SameRegisters(Step(TWO_ENTRIES, gold, i), GateStep(gate, i))
  {
    assert Pow2(0) == 1 && Pow2(1) == 2 && Pow2(2) == 4;
    hide Pow2;
    var s := Step(TWO_ENTRIES, gold, i);
    assert s.createPtr == GateStepPtr(gate, i);
  }

  function GateStepPtr<D>(gate: GateState<D>, i: Inputs<D>): seq<bool> { Decode(GateStep(gate, i).createIdx) }

  lemma {:induction false} SameRegistersRun<D>(gold: State<D>, gate: GateState<D>, trace: seq<Inputs<D>>)
    requires SameRegisters(gold, gate) && Shaped(TWO_ENTRIES, gold) && TWO_ENTRIES.Valid()
    ensures SameRegisters(Run(TWO_ENTRIES, gold, trace), GateRun(gate, trace))
    decreases |trace|
  {
    if trace != [] {
      SameRegistersStep(gold, gate, trace[0]);
      SameRegistersRun(Step(TWO_ENTRIES, gold, trace[0]), GateStep(gate, trace[0]), trace[1..]);
    }
  }

  /** On every trace from reset, legal or not, gold and gate agree on all registers and outputs. */
  lemma GoldEqualsGate<D>(zero: D, trace: seq<Inputs<D>>)
    ensures TWO_ENTRIES.Valid()
    ensures var gold, gate := Run(TWO_ENTRIES, Reset(TWO_ENTRIES, zero), trace), GateRun(GateReset(zero), trace);
      && SameRegisters(gold, gate)
      && (Full(gold) <==> gate.vld0 && gate.vld1)
      && (Empty(gold) <==> !(gate.vld0 || gate.vld1))
      && PopIndex(TWO_ENTRIES, gold) < 2
      && gold.cont[PopIndex(TWO_ENTRIES, gold)] == (if gate.popIdx then gate.cont1 else gate.cont0)
  {
    assert Pow2(0) == 1 && Pow2(1) == 2;
    SameRegistersRun(Reset(TWO_ENTRIES, zero), GateReset(zero), trace);
    var gold, gate := Run(TWO_ENTRIES, Reset(TWO_ENTRIES, zero), trace), GateRun(GateReset(zero), trace);
    assert gold.vld[0] == gate.vld0 && gold.vld[1] == gate.vld1;
  }

  /** Hence the gate is the queue of capacity two on every legal run. */
  lemma GateRefinesQueue<D>(zero: D, trace: seq<Inputs<D>>)
    requires TWO_ENTRIES.Valid() && LegalRun(TWO_ENTRIES, Reset(TWO_ENTRIES, zero), trace)
    ensures var gate, q := GateRun(GateReset(zero), trace), QueueRun([], trace);
      && (gate.vld0 && gate.vld1 <==> |q| == 2)
      && (!(gate.vld0 || gate.vld1) <==> q == [])
      && (q != [] ==> (if gate.popIdx then gate.cont1 else gate.cont0) == q[0])
  {
    GoldEqualsGate(zero, trace);
    RefinesQueue(TWO_ENTRIES, zero, trace);
  }

  // ---------- clock gating ----------

  /** The recoded FIFO has the same clock cells: one for the control registers, one for each entry. */
  function GatedGateStep<D>(s: GateState<D>, i: Inputs<D>, icgEn: bool): GateState<D> {
    var next, create := GateStep(s, i), Decode(s.createIdx);
    var control := if icgEn || i.createEnDp || s.vld0 || s.vld1 then next else s;
    control.(cont0 := if icgEn || (i.createEnDp && create[0]) then next.cont0 else s.cont0,
             cont1 := if icgEn || (i.createEnDp && create[1]) then next.cont1 else s.cont1)
  }

  function GatedGateRun<D>(s: GateState<D>, trace: seq<(Inputs<D>, bool)>): GateState<D>
    decreases |trace|
  {
    if trace == [] then s else GatedGateRun(GatedGateStep(s, trace[0].0, trace[0].1), trace[1..])
  }

  /** With real clock gates in both, gold and gate still agree, on every trace. */
  lemma {:induction false} GatedGoldEqualsGate<D>(gold: State<D>, gate: GateState<D>, trace: seq<(Inputs<D>, bool)>)
    requires SameRegisters(gold, gate) && Shaped(TWO_ENTRIES, gold) && TWO_ENTRIES.Valid()
    ensures SameRegisters(GatedRun(TWO_ENTRIES, gold, trace), GatedGateRun(gate, trace))
    decreases |trace|
  {
    if trace != [] {
      SameGatedStep(gold, gate, trace[0].0, trace[0].1);
      GatedGoldEqualsGate(GatedStep(TWO_ENTRIES, gold, trace[0].0, trace[0].1),
                          GatedGateStep(gate, trace[0].0, trace[0].1), trace[1..]);
    }
  }

  lemma SameGatedStep<D>(gold: State<D>, gate: GateState<D>, i: Inputs<D>, icgEn: bool)
    requires SameRegisters(gold, gate) && Shaped(TWO_ENTRIES, gold) && TWO_ENTRIES.Valid()
    ensures Shaped(TWO_ENTRIES, GatedStep(TWO_ENTRIES, gold, i, icgEn))
    ensures SameRegisters(GatedStep(TWO_ENTRIES, gold, i, icgEn), GatedGateStep(gate, i, icgEn))
  {
    hide Step, GateStep, Pow2;
    SameRegistersStep(gold, gate, i);
    assert gold.vld[0] == gate.vld0 && gold.vld[1] == gate.vld1;
  }

  /** Whoever creates with the data enable and never takes from the empty FIFO does not notice the gates. */
  lemma GateGatingInvisible<D>(zero: D, trace: seq<(Inputs<D>, bool)>)
    requires TWO_ENTRIES.Valid() && ClockedRun(TWO_ENTRIES, Reset(TWO_ENTRIES, zero), InputsOf(trace))
    ensures GatedGateRun(GateReset(zero), trace) == GateRun(GateReset(zero), InputsOf(trace))
  {
    var gold, gate := Reset(TWO_ENTRIES, zero), GateReset(zero);
    SameRegistersRun(gold, gate, InputsOf(trace));
    GatedGoldEqualsGate(gold, gate, trace);
    GatingInvisible(TWO_ENTRIES, gold, trace);
    OneGate(Run(TWO_ENTRIES, gold, InputsOf(trace)), GatedGateRun(gate, trace), GateRun(gate, InputsOf(trace)));
  }

  /** The gold registers determine the recoded ones. */
  lemma OneGate<D>(gold: State<D>, a: GateState<D>, b: GateState<D>)
    requires SameRegisters(gold, a) && SameRegisters(gold, b)
    ensures a == b
  {
    assert gold.createPtr[0] == !a.createIdx == !b.createIdx;
    assert gold.vld[0] == a.vld0 == b.vld0 && gold.vld[1] == a.vld1 == b.vld1;
    assert gold.cont[0] == a.cont0 == b.cont0 && gold.cont[1] == a.cont1 == b.cont1;
  }

  /** ct_fifo_gate: PosEdge is what its always blocks do on a rising clock edge. */
  class CtFifoGate<D> {
    var createIdx: bool
    var popIdx: bool
    var vld0: bool
    var vld1: bool
    var cont0: D
    var cont1: D

    function Registers(): GateState<D>
      reads this
    {
      GateState(createIdx, popIdx, vld0, vld1, cont0, cont1)
    }

    constructor (zero: D)
      ensures Registers() == GateReset(zero)
    {
      createIdx, popIdx, vld0, vld1, cont0, cont1 := false, false, false, false, zero, zero;
    }

    method PosEdge(i: Inputs<D>)
      modifies this
      ensures Registers() == GateStep(old(Registers()), i)
    {
      var create0, create1 := !createIdx, createIdx;
      var pop0, pop1 := !popIdx, popIdx;
      if i.createEn && create0 {
        vld0 := true;
      } else if i.popEn && pop0 {
        vld0 := false;
      }
      if i.createEn && create1 {
        vld1 := true;
      } else if i.popEn && pop1 {
        vld1 := false;
      }
      if i.createEnDp && create0 {
        cont0 := i.createData;
      }
      if i.createEnDp && create1 {
        cont1 := i.createData;
      }
      if i.createEn {
        createIdx := !createIdx;
      }
      if i.popEn {
        popIdx := !popIdx;
      }
    }
  }
}
