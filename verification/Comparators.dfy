/** The two comparators of core_list_join.c and the evaluation they cache. */
module Comparators {
  import opened Crc
  import opened ItemData
  import opened ListHeap

  /** A run of core_bench_state (flag 0) or core_bench_matrix (flag 1). */
  datatype BenchCall = BenchCall(flag: bv16, dtype: bv16, crc: bv16)

  class CoreResults {
    /** What the nested benchmark returns, given all its calls so far. Any value, depending
    in any way on the order of evaluation. */
    const bench: seq<BenchCall> -> bv16
    const list: ListHead
    const seed3: int
    var crc: bv16
    var crcstate: bv16
    var crcmatrix: bv16
    var calls: seq<BenchCall>

    constructor (list: ListHead, seed3: int, bench: seq<BenchCall> -> bv16, crc: bv16)
      ensures this.list == list && this.seed3 == seed3 && this.bench == bench && this.crc == crc
      ensures crcstate == 0 && crcmatrix == 0 && calls == []
    {
      this.list, this.seed3, this.bench, this.crc := list, seed3, bench, crc;
      crcstate, crcmatrix, calls := 0, 0, [];
    }
  }

  function Flag(data: bv16): bv16 { data & 0x0007 }

  /** The four bits from bit 3 on. */
  function Argument(data: bv16): bv16 { (data / 8) % 16 }

  /** 17 times the argument, and at least 34 for the state benchmark. */
  function Dtype(data: bv16): bv16 {
    var d := 17 * Argument(data);
    if Flag(data) == 0 && d < 34 then 34 else d
  }

  function CallsAfter(data: bv16, crc: bv16, calls: seq<BenchCall>): seq<BenchCall> {
    if Flag(data) == 0 || Flag(data) == 1 then calls + [BenchCall(Flag(data), Dtype(data), crc)] else calls
  }

  /** What the function named by an uncached item returns. */
  function Evaluated(bench: seq<BenchCall> -> bv16, data: bv16, crc: bv16, calls: seq<BenchCall>): bv16 {
    if Flag(data) == 0 || Flag(data) == 1 then bench(CallsAfter(data, crc, calls)) else data
  }

  method CalcFunc(pdata: ListData, res: CoreResults) returns (retval: bv16)
    modifies pdata, res
    ensures retval == Value(pdata.item.data16) && Cached(pdata.item.data16)
    ensures UpperByte(pdata.item.data16) == UpperByte(old(pdata.item.data16)) && pdata.item.idx == old(pdata.item.idx)
    ensures Cached(old(pdata.item.data16)) ==> unchanged(pdata) && unchanged(res)
    ensures !Cached(old(pdata.item.data16)) ==>
              var data := old(pdata.item.data16);
              var value := Evaluated(res.bench, data, old(res.crc), old(res.calls));
              && pdata.item.data16 == WithValue(data, value)
              && res.crc == CrcOfWord(value, old(res.crc))
              && res.calls == CallsAfter(data, old(res.crc), old(res.calls))
              && res.crcstate == FirstResult(data, 0, old(res.crcstate), value)
              && res.crcmatrix == FirstResult(data, 1, old(res.crcmatrix), value)
  {
    hide Cached, Value, UpperByte, WithValue, CrcOfWord, Flag, Dtype;
    var data := pdata.item.data16;
    if data & 0x0080 != 0 {
      assert Cached(data) by { CachedIffBit7(data); }
      retval := data & 0x007f;
      assert retval == Value(data) by { ValueIsLowBits(data); }
      return;
    }
    assert !Cached(data) by { CachedIffBit7(data); }
    retval := RunFunction(data, res);
    ghost var value := retval;
    res.crc := Crcu16(retval, res.crc);
    retval := retval & 0x007f;
    pdata.item := pdata.item.(data16 := (data & 0xff00) | 0x0080 | retval);
    WithValueIs(data, value);
    WithValueFacts(data, value);
  }

  /** The first result of a benchmark is kept for the report, as long as it is not zero. */
  function FirstResult(data: bv16, flag: bv16, kept: bv16, value: bv16): bv16 {
    if Flag(data) == flag && kept == 0 then value else kept
  }

  /** In its own terms: bits 0-2 select the state benchmark (0), the matrix benchmark (1), or the data itself; bits 3-6
  are the argument, 17-fold, where the state benchmark gets at least 34; and a first result stands until it is
  not zero. */
  lemma EvaluatedIs(bench: seq<BenchCall> -> bv16, data: bv16, crc: bv16, calls: seq<BenchCall>, kept: bv16,
                    value: bv16)
    ensures var arg := (data & 0x0078) / 8;
            match data & 0x0007
            case 0 => var calls' := calls + [BenchCall(0, if arg < 2 then 34 else arg * 17, crc)];
                      Evaluated(bench, data, crc, calls) == bench(calls') && CallsAfter(data, crc, calls) == calls'
            case 1 => var calls' := calls + [BenchCall(1, arg * 17, crc)];
                      Evaluated(bench, data, crc, calls) == bench(calls') && CallsAfter(data, crc, calls) == calls'
            case _ => Evaluated(bench, data, crc, calls) == data && CallsAfter(data, crc, calls) == calls
    ensures FirstResult(data, 0, kept, value) == if data & 0x0007 == 0 && kept == 0 then value else kept
    ensures FirstResult(data, 1, kept, value) == if data & 0x0007 == 1 && kept == 0 then value else kept
  {
    DtypeIs(data);
    hide Dtype;
  }

  lemma DtypeIs(data: bv16)
    ensures var arg := (data & 0x0078) / 8;
            Dtype(data) == if data & 0x0007 == 0 && arg < 2 then 34 else arg * 17
  {
  }

  /** The switch of calc_func. */
  method RunFunction(data: bv16, res: CoreResults) returns (retval: bv16)
    modifies res
    ensures retval == Evaluated(res.bench, data, res.crc, old(res.calls))
    ensures res.calls == CallsAfter(data, res.crc, old(res.calls))
    ensures res.crc == old(res.crc)
    ensures res.crcstate == FirstResult(data, 0, old(res.crcstate), retval)
    ensures res.crcmatrix == FirstResult(data, 1, old(res.crcmatrix), retval)
  {
    hide Flag, Dtype;
    var flag := Flag(data);
    var dtype := ReplicatedDtype(data);
    if flag == 0 {
      retval := RunBenchmark(flag, dtype, res);
      if res.crcstate == 0 {
        res.crcstate := retval;
      }
    } else if flag == 1 {
      retval := RunBenchmark(flag, dtype, res);
      if res.crcmatrix == 0 {
        res.crcmatrix := retval;
      }
    } else {
      retval := data;
    }
  }

  /** core_bench_state or core_bench_matrix. */
  method RunBenchmark(flag: bv16, dtype: bv16, res: CoreResults) returns (retval: bv16)
    modifies res`calls
    ensures res.calls == old(res.calls) + [BenchCall(flag, dtype, res.crc)]
    ensures retval == res.bench(res.calls)
  {
    res.calls := res.calls + [BenchCall(flag, dtype, res.crc)];
    retval := res.bench(res.calls);
  }

  /** Writing the four bits twice is multiplying them by 17. */
  method ReplicatedDtype(data: bv16) returns (dtype: bv16)
    ensures dtype == Dtype(data)
  {
    dtype := (data >> 3) & 0x000f;
    dtype := dtype | (dtype << 4);
    if data & 0x0007 == 0 && dtype < 0x22 {
      dtype := 0x22;
    }
  }

  lemma CachedIffBit7(data: bv16)
    ensures Cached(data) <==> data & 0x0080 != 0
  {
  }

  lemma ValueIsLowBits(data: bv16)
    ensures Value(data) == data & 0x007f
  {
  }

  lemma WithValueIs(data: bv16, value: bv16)
    ensures WithValue(data, value) == (data & 0xff00) | 0x0080 | (value & 0x007f)
  {
  }

  /** The function pointer passed to the sort. CmpRank stands for any comparator that is a
  function of the item alone: a total preorder of finitely many items is given by a rank. */
  datatype Comparator = CmpIdx | CmpComplex | CmpRank(rank: ListData -> int)

  /** The item is as the comparator leaves it: comparing again changes nothing. */
  predicate Settled(cmp: Comparator, res: CoreResults?, item: Item) {
    match cmp
    case CmpIdx => res == null ==> Regenerated(item.data16)
    case CmpComplex => Cached(item.data16)
    case CmpRank(_) => true
  }

  /** A value of at most 15 bits, as the signed integer it is promoted to. */
  function AsInt(value: bv16): int { value as int }

  /** What an item is sorted by once it is settled. */
  function Key(cmp: Comparator, d: ListData, item: Item): int {
    match cmp
    case CmpIdx => item.idx
    case CmpComplex => AsInt(Value(item.data16))
    case CmpRank(rank) => rank(d)
  }

  /** How comparisons may change an item: position and upper data byte stay, a settled item
  stays, and an item that does change is settled afterwards. */
  ghost predicate Evolves(cmp: Comparator, res: CoreResults?, before: Item, after: Item) {
    after.idx == before.idx &&
    UpperByte(after.data16) == UpperByte(before.data16) &&
    (Settled(cmp, res, before) ==> after == before) &&
    (after != before ==> Settled(cmp, res, after))
  }

  lemma EvolvesReflexive(cmp: Comparator, res: CoreResults?)
    ensures forall item :: Evolves(cmp, res, item, item)
  {
  }

  lemma EvolvesTransitive(cmp: Comparator, res: CoreResults?, a: Item, b: Item, c: Item)
    requires Evolves(cmp, res, a, b) && Evolves(cmp, res, b, c)
    ensures Evolves(cmp, res, a, c)
  {
  }

  lemma SettledStays(cmp: Comparator, res: CoreResults?, before: Item, after: Item)
    requires Evolves(cmp, res, before, after) && Settled(cmp, res, before)
    ensures after == before
  {
  }

  method Compare(cmp: Comparator, a: ListData, b: ListData, res: CoreResults?) returns (order: int)
    requires cmp.CmpComplex? ==> res != null
    modifies a, b, res
    ensures order == Key(cmp, a, a.item) - Key(cmp, b, b.item)
    ensures Settled(cmp, res, a.item) && Settled(cmp, res, b.item)
    ensures Evolves(cmp, res, old(a.item), a.item) && Evolves(cmp, res, old(b.item), b.item)
  {
    hide Cached, Value, UpperByte, Regenerated;
    match cmp
    case CmpIdx =>
      order := CompareIdx(a, b, res);
    case CmpComplex =>
      order := CompareComplex(a, b, res);
    case CmpRank(rank) =>
      order := rank(a) - rank(b);
  }

  method CompareIdx(a: ListData, b: ListData, res: CoreResults?) returns (order: int)
    modifies a, b
    ensures order == a.item.idx - b.item.idx
    ensures res != null ==> unchanged(a) && unchanged(b)
    ensures Evolves(CmpIdx, res, old(a.item), a.item) && Evolves(CmpIdx, res, old(b.item), b.item)
    ensures Settled(CmpIdx, res, a.item) && Settled(CmpIdx, res, b.item)
  {
    hide UpperByte, Regenerated, Regenerate;
    if res == null {
      var data := Rebuilt(a.item.data16);
      a.item := a.item.(data16 := data);
      data := Rebuilt(b.item.data16);
      b.item := b.item.(data16 := data);
    }
    order := a.item.idx - b.item.idx;
  }

  method CompareComplex(a: ListData, b: ListData, res: CoreResults) returns (order: int)
    modifies a, b, res
    ensures order == AsInt(Value(a.item.data16)) - AsInt(Value(b.item.data16))
    ensures Cached(a.item.data16) && Cached(b.item.data16)
    ensures Evolves(CmpComplex, res, old(a.item), a.item) && Evolves(CmpComplex, res, old(b.item), b.item)
  {
    hide Cached, Value, UpperByte, AsInt, WithValue, Evaluated, CallsAfter, FirstResult, CrcOfWord;
    var val1 := CalcFunc(a, res);
    var val2 := CalcFunc(b, res);
    order := AsInt(val1) - AsInt(val2);
  }

  method Rebuilt(data: bv16) returns (rebuilt: bv16)
    ensures rebuilt == Regenerate(data)
    ensures Regenerated(rebuilt) && UpperByte(rebuilt) == UpperByte(data)
    ensures Regenerated(data) ==> rebuilt == data
  {
    rebuilt := (data & 0xff00) | (0x00ff & (data >> 8));
    RegenerateFacts(data);
  }
}
