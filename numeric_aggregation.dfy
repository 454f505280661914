/**
 * The SUM plugin: a range argument is aggregated once per function name and
 * cached on the range's vertex; a range that depends on a smaller range
 * reuses that range's cached aggregate and reads only the remaining cells.
 *
 * A range vertex is identified by its exact bounds, so the range mapping and
 * every vertex's per-function cache are one map from a range to its cache.
 * The graph's edges, the current cell values and the smaller-range lookup are
 * read, never changed, by this plugin; they are given as a Graph value.
 */
module NumericAggregation {
  import opened Results
  import opened Cell
  import opened AbsoluteCellRanges

  const SUM: string := "SUM"
  const RANGE_NOT_IN_GRAPH: string := "Range does not exists in graph"

  /** One range vertex's last computed aggregate per function name. */
  type FunctionCache = map<string, int>

  /** The range vertices, by exact bounds, each with its function cache. */
  type RangeMapping = map<AbsoluteCellRange, FunctionCache>

  /** What the smaller-range lookup answers for a range: a smaller range vertex, if any, and the cells left over. */
  datatype SmallerRange = SmallerRange(smallerRangeVertex: Option<AbsoluteCellRange>, restRange: AbsoluteCellRange)

  /** The collaborators the plugin reads. */
  datatype Graph = Graph(
    edges: set<(AbsoluteCellRange, AbsoluteCellRange)>,
    cellValue: SimpleCellAddress -> int,
    findSmallerRange: AbsoluteCellRange -> SmallerRange)

  /** The scalar addition, on numbers. */
  function Add(x: int, y: int): int { x + y }

  /** The left fold of Add from 0 over the values, in order. */
  function SumOfValues(values: seq<int>): int {
    if values == [] then 0 else Add(SumOfValues(values[..|values| - 1]), values[|values| - 1])
  }

  lemma {:induction false} SumOfValuesAppend(xs: seq<int>, ys: seq<int>)
    ensures SumOfValues(xs + ys) == Add(SumOfValues(xs), SumOfValues(ys))
    decreases |ys|
  {
    if ys == [] {
      assert xs + ys == xs;
    } else {
      SumOfValuesAppend(xs, ys[..|ys| - 1]);
      assert (xs + ys)[..|xs + ys| - 1] == xs + ys[..|ys| - 1];
    }
  }

  /** reduceSum: the accumulator loop over the values. */
  method ReduceSum(rangeValues: seq<int>) returns (acc: int)
    ensures acc == SumOfValues(rangeValues)
  {
    acc := 0;
    for i := 0 to |rangeValues|
      invariant acc == SumOfValues(rangeValues[..i])
    {
      assert rangeValues[..i + 1][..i] == rangeValues[..i];
      acc := Add(acc, rangeValues[i]);
    }
    assert rangeValues[..|rangeValues|] == rangeValues;
  }

  /** The values of the given cells, in the same order. */
  function CellValues(g: Graph, cells: seq<SimpleCellAddress>): (values: seq<int>)
    ensures |values| == |cells|
  {
    if cells == [] then [] else CellValues(g, cells[..|cells| - 1]) + [g.cellValue(cells[|cells| - 1])]
  }

  lemma {:induction false} CellValuesAppend(g: Graph, xs: seq<SimpleCellAddress>, ys: seq<SimpleCellAddress>)
    ensures CellValues(g, xs + ys) == CellValues(g, xs) + CellValues(g, ys)
    decreases |ys|
  {
    if ys == [] {
      assert xs + ys == xs;
    } else {
      CellValuesAppend(g, xs, ys[..|ys| - 1]);
      assert (xs + ys)[..|xs + ys| - 1] == xs + ys[..|ys| - 1];
    }
  }

  /** A cached value counts only when it is truthy: absent and 0 both mean "not cached". */
  predicate IsCached(cache: FunctionCache, functionName: string) {
    functionName in cache && cache[functionName] != 0
  }

  /** The lookup found a smaller range and the graph has an edge from it to this range. */
  predicate ReusesSmaller(g: Graph, range: AbsoluteCellRange) {
    var found := g.findSmallerRange(range);
    found.smallerRangeVertex.Some? && (found.smallerRangeVertex.value, range) in g.edges
  }

  /** What the non-null assertion on the smaller range's cached value takes for granted. */
  predicate SmallerValueCached(g: Graph, m: RangeMapping, functionName: string, range: AbsoluteCellRange) {
    ReusesSmaller(g, range) ==>
      var smaller := g.findSmallerRange(range).smallerRangeVertex.value;
      smaller in m && functionName in m[smaller]
  }

  /**
   * getRangeValues: the smaller range's cached value first when it is reused,
   * then the value of every remaining cell in row-major order.
   */
  function RangeValues(g: Graph, m: RangeMapping, functionName: string, range: AbsoluteCellRange): seq<int>
    requires SmallerValueCached(g, m, functionName, range)
  {
    var found := g.findSmallerRange(range);
    (if ReusesSmaller(g, range) then [m[found.smallerRangeVertex.value][functionName]] else [])
      + CellValues(g, Cells(found.restRange))
  }

  /** The list holds one entry for the reused range, if any, and one per remaining cell. */
  lemma RangeValuesLength(g: Graph, m: RangeMapping, functionName: string, range: AbsoluteCellRange)
    requires SmallerValueCached(g, m, functionName, range)
    ensures var rest := g.findSmallerRange(range).restRange;
      |RangeValues(g, m, functionName, range)|
        == (if ReusesSmaller(g, range) then 1 else 0) + (if rest.WellFormed() then rest.Size() else 0)
  {
    CellsCount(g.findSmallerRange(range).restRange);
  }

  /**
   * What the smaller-range lookup is meant to return, whatever the graph
   * holds: a smaller range's cells followed by the remaining cells are the
   * cells of the range, and with no smaller range the rest is the whole range.
   */
  predicate LookupSplits(g: Graph, range: AbsoluteCellRange) {
    var found := g.findSmallerRange(range);
    match found.smallerRangeVertex
    case Some(smaller) => Cells(range) == Cells(smaller) + Cells(found.restRange)
    case None => Cells(found.restRange) == Cells(range)
  }

  /**
   * Reusing the smaller range's cached SUM gives the same total as summing
   * every cell of the range, provided the cached value is the sum of the
   * smaller range's cells, the lookup split the range as it should, and the
   * graph has the edge whenever the lookup found a smaller range.
   */
  lemma SmallerRangeReuseIsSound(g: Graph, m: RangeMapping, range: AbsoluteCellRange)
    requires SmallerValueCached(g, m, SUM, range)
    requires LookupSplits(g, range)
    requires ReusesSmaller(g, range) || g.findSmallerRange(range).smallerRangeVertex.None?
    requires ReusesSmaller(g, range) ==>
      var smaller := g.findSmallerRange(range).smallerRangeVertex.value;
      m[smaller][SUM] == SumOfValues(CellValues(g, Cells(smaller)))
    ensures SumOfValues(RangeValues(g, m, SUM, range)) == SumOfValues(CellValues(g, Cells(range)))
  {
    var found := g.findSmallerRange(range);
    var restValues := CellValues(g, Cells(found.restRange));
    if ReusesSmaller(g, range) {
      var smaller := found.smallerRangeVertex.value;
      var smallerValues := CellValues(g, Cells(smaller));
      SumOfValuesAppend([m[smaller][SUM]], restValues);
      assert SumOfValues([m[smaller][SUM]]) == m[smaller][SUM] by {
        assert [m[smaller][SUM]][..0] == [];
      }
      CellValuesAppend(g, Cells(smaller), Cells(found.restRange));
      SumOfValuesAppend(smallerValues, restValues);
    } else {
      assert RangeValues(g, m, SUM, range) == restValues;
    }
  }

  /**
   * When the lookup found a smaller range but the graph has no edge from it,
   * the list holds the remaining cells' values only: the smaller range's
   * cells are read neither from its cache nor one by one, so the SUM of the
   * list falls short of the range's SUM by exactly the smaller range's SUM.
   */
  lemma SmallerFoundWithoutEdge(g: Graph, m: RangeMapping, functionName: string, range: AbsoluteCellRange)
    requires g.findSmallerRange(range).smallerRangeVertex.Some? && !ReusesSmaller(g, range)
    ensures RangeValues(g, m, functionName, range) == CellValues(g, Cells(g.findSmallerRange(range).restRange))
    ensures LookupSplits(g, range) ==>
      var smaller := g.findSmallerRange(range).smallerRangeVertex.value;
      Add(SumOfValues(CellValues(g, Cells(smaller))), SumOfValues(RangeValues(g, m, functionName, range)))
        == SumOfValues(CellValues(g, Cells(range)))
  {
    var found := g.findSmallerRange(range);
    assert RangeValues(g, m, functionName, range) == CellValues(g, Cells(found.restRange));
    if LookupSplits(g, range) {
      var smaller := found.smallerRangeVertex.value;
      CellValuesAppend(g, Cells(smaller), Cells(found.restRange));
      SumOfValuesAppend(CellValues(g, Cells(smaller)), CellValues(g, Cells(found.restRange)));
    }
  }

  /**
   * When a range grows downwards, from rows start.row..mid - 1 to
   * start.row..end.row, its cells are the old range's cells followed by the
   * cells of the new rows: the split the reuse relies on.
   */
  lemma GrowingRangeSplits(range: AbsoluteCellRange, mid: int)
    requires range.start.row <= mid <= range.end.row + 1
    ensures Cells(range) ==
      Cells(range.(end := range.end.(row := mid - 1))) + Cells(range.(start := range.start.(row := mid)))
  {
    CellsSplitByRows(range, mid, range.start.row);
  }

  // ---------------------------------------------------------------------------
  // evaluateRange

  /** The outcome of an evaluation: the value or the thrown error, and the range mapping afterwards. */
  datatype Evaluated = Evaluated(result: Result<int, string>, mapping: RangeMapping)

  /** The precondition of evaluateRange: only a cache miss reads the smaller range's value. */
  predicate ReadyToEvaluate(g: Graph, m: RangeMapping, functionName: string, range: AbsoluteCellRange) {
    range in m && !IsCached(m[range], functionName) && range.SameSheet() ==>
      SmallerValueCached(g, m, functionName, range)
  }

  /**
   * evaluateRange: fail when no vertex has these bounds; return a truthy
   * cached value for the function as it is; otherwise compute the value from
   * getRangeValues and cache it under the function name.
   */
  function EvaluateRangeSpec(
    g: Graph, m: RangeMapping, rangeStart: SimpleCellAddress, rangeEnd: SimpleCellAddress,
    functionName: string, funcToCalc: seq<int> -> int
  ): (e: Evaluated)
    requires ReadyToEvaluate(g, m, functionName, AbsoluteCellRange(rangeStart, rangeEnd))
    ensures e.mapping.Keys == m.Keys
    ensures forall k :: k in m && k != AbsoluteCellRange(rangeStart, rangeEnd) ==> e.mapping[k] == m[k]
    ensures e.result.Failure? ==> e.mapping == m
    ensures AbsoluteCellRange(rangeStart, rangeEnd) !in m <==> e.result == Failure(RANGE_NOT_IN_GRAPH)
    ensures var key := AbsoluteCellRange(rangeStart, rangeEnd);
      key in m && IsCached(m[key], functionName) ==> e == Evaluated(Success(m[key][functionName]), m)
    ensures var key := AbsoluteCellRange(rangeStart, rangeEnd);
      key in m && !IsCached(m[key], functionName) && rangeStart.sheet != rangeEnd.sheet ==>
        e.result == Failure(DIFFERENT_SHEETS_ERROR)
    ensures var key := AbsoluteCellRange(rangeStart, rangeEnd);
      e.result.Success? && e.mapping != m ==>
        && key in m
        && e.mapping[key].Keys == m[key].Keys + {functionName}
        && e.mapping[key][functionName] == e.result.value
        && forall name :: name in m[key] && name != functionName ==> e.mapping[key][name] == m[key][name]
  {
    var key := AbsoluteCellRange(rangeStart, rangeEnd);
    if key !in m then Evaluated(Failure(RANGE_NOT_IN_GRAPH), m)
    else if IsCached(m[key], functionName) then Evaluated(Success(m[key][functionName]), m)
    else match NewAbsoluteCellRange(rangeStart, rangeEnd)
      case Failure(err) => Evaluated(Failure(err), m)
      case Success(range) =>
        var value := funcToCalc(RangeValues(g, m, functionName, range));
        Evaluated(Success(value), m[key := m[key][functionName := value]])
  }

  /**
   * On a miss the value comes from the range values, a cached 0 included;
   * evaluating again right after a truthy result returns that result and
   * writes nothing.
   */
  lemma {:induction false} EvaluateRangeTwice(
    g: Graph, m: RangeMapping, rangeStart: SimpleCellAddress, rangeEnd: SimpleCellAddress,
    functionName: string, funcToCalc: seq<int> -> int
  )
    requires ReadyToEvaluate(g, m, functionName, AbsoluteCellRange(rangeStart, rangeEnd))
    requires AbsoluteCellRange(rangeStart, rangeEnd) in m && rangeStart.sheet == rangeEnd.sheet
    requires !IsCached(m[AbsoluteCellRange(rangeStart, rangeEnd)], functionName)
    ensures var e := EvaluateRangeSpec(g, m, rangeStart, rangeEnd, functionName, funcToCalc);
      var range := AbsoluteCellRange(rangeStart, rangeEnd);
      && e.result == Success(funcToCalc(RangeValues(g, m, functionName, range)))
      && e.mapping[range][functionName] == e.result.value
      && (e.result.value != 0 ==>
            ReadyToEvaluate(g, e.mapping, functionName, range)
            && EvaluateRangeSpec(g, e.mapping, rangeStart, rangeEnd, functionName, funcToCalc)
               == Evaluated(e.result, e.mapping))
  {
  }

  // ---------------------------------------------------------------------------
  // sum

  /** An argument of SUM: a cell range, or any other expression, given by the value it evaluates to. */
  datatype SumArg = CellRangeArg(rangeStart: SimpleCellAddress, rangeEnd: SimpleCellAddress) | OtherArg(value: int)

  predicate ArgReady(g: Graph, m: RangeMapping, arg: SumArg) {
    arg.CellRangeArg? ==> ReadyToEvaluate(g, m, SUM, AbsoluteCellRange(arg.rangeStart, arg.rangeEnd))
  }

  /** A range argument goes through evaluateRange with reduceSum under "SUM"; any other is its value. */
  function EvaluateArg(g: Graph, m: RangeMapping, arg: SumArg): Evaluated
    requires ArgReady(g, m, arg)
  {
    match arg
    case CellRangeArg(rangeStart, rangeEnd) => EvaluateRangeSpec(g, m, rangeStart, rangeEnd, SUM, SumOfValues)
    case OtherArg(value) => Evaluated(Success(value), m)
  }

  /** Every argument is ready when its turn comes, given the caches the earlier ones leave. */
  predicate SumReady(g: Graph, m: RangeMapping, args: seq<SumArg>)
    decreases |args|
  {
    args == [] ||
    (ArgReady(g, m, args[0]) &&
      var first := EvaluateArg(g, m, args[0]);
      first.result.Success? ==> SumReady(g, first.mapping, args[1..]))
  }

  /** sum: fold Add over the arguments' values in order from acc; the first error thrown stops it. */
  function SumFrom(g: Graph, m: RangeMapping, args: seq<SumArg>, acc: int): Evaluated
    requires SumReady(g, m, args)
    decreases |args|
  {
    if args == [] then Evaluated(Success(acc), m)
    else
      var first := EvaluateArg(g, m, args[0]);
      match first.result
      case Failure(_) => first
      case Success(value) => SumFrom(g, first.mapping, args[1..], Add(acc, value))
  }

  function ArgValues(args: seq<SumArg>): seq<int>
    requires forall i :: 0 <= i < |args| ==> args[i].OtherArg?
  {
    if args == [] then [] else [args[0].value] + ArgValues(args[1..])
  }

  lemma {:induction false} SumOfValuesCons(x: int, ys: seq<int>)
    ensures SumOfValues([x] + ys) == Add(x, SumOfValues(ys))
  {
    SumOfValuesAppend([x], ys);
    assert [x][..0] == [];
  }

  /**
   * Without range arguments sum is the sum of the arguments' values and
   * touches no cache; with no arguments at all it is 0.
   */
  lemma {:induction false} SumOfScalars(g: Graph, m: RangeMapping, args: seq<SumArg>, acc: int)
    requires forall i :: 0 <= i < |args| ==> args[i].OtherArg?
    ensures SumReady(g, m, args)
    ensures SumFrom(g, m, args, acc) == Evaluated(Success(Add(acc, SumOfValues(ArgValues(args)))), m)
    decreases |args|
  {
    if args != [] {
      SumOfScalars(g, m, args[1..], Add(acc, args[0].value));
      SumOfValuesCons(args[0].value, ArgValues(args[1..]));
    }
  }

  /** What sum may change: only the "SUM" entries of range vertices that exist. */
  predicate OnlySumEntriesChanged(before: RangeMapping, after: RangeMapping) {
    && after.Keys == before.Keys
    && forall k :: k in before ==>
        && after[k].Keys - {SUM} == before[k].Keys - {SUM}
        && forall name :: name in before[k] && name != SUM ==> name in after[k] && after[k][name] == before[k][name]
  }

  /** sum leaves every other function's cached value, on every range vertex, as it was. */
  lemma {:induction false} SumKeepsOtherCaches(g: Graph, m: RangeMapping, args: seq<SumArg>, acc: int)
    requires SumReady(g, m, args)
    ensures OnlySumEntriesChanged(m, SumFrom(g, m, args, acc).mapping)
    decreases |args|
  {
    if args != [] {
      var first := EvaluateArg(g, m, args[0]);
      if first.result.Success? {
        SumKeepsOtherCaches(g, first.mapping, args[1..], Add(acc, first.result.value));
        var after := SumFrom(g, m, args, acc).mapping;
        assert OnlySumEntriesChanged(m, first.mapping);
        assert OnlySumEntriesChanged(first.mapping, after);
      }
    }
  }

  /** The plugin with the range vertices' caches it updates. */
  class NumericAggregationPlugin {
    const graph: Graph
    var rangeMapping: RangeMapping

    constructor (graph: Graph, rangeMapping: RangeMapping)
      ensures this.graph == graph && this.rangeMapping == rangeMapping
    {
      this.graph := graph;
      this.rangeMapping := rangeMapping;
    }

    /** getRangeValues: the reused value, if any, then a push per remaining cell. */
    method GetRangeValues(functionName: string, range: AbsoluteCellRange) returns (rangeResult: seq<int>)
      requires SmallerValueCached(graph, rangeMapping, functionName, range)
      ensures rangeResult == RangeValues(graph, rangeMapping, functionName, range)
    {
      rangeResult := [];
      var found := graph.findSmallerRange(range);
      if found.smallerRangeVertex.Some? && (found.smallerRangeVertex.value, range) in graph.edges {
        rangeResult := rangeResult + [rangeMapping[found.smallerRangeVertex.value][functionName]];
      }
      ghost var reused := rangeResult;
      var cells := GenerateCells(found.restRange);
      for i := 0 to |cells|
        invariant rangeResult == reused + CellValues(graph, cells[..i])
      {
        assert cells[..i + 1][..i] == cells[..i];
        rangeResult := rangeResult + [graph.cellValue(cells[i])];
      }
      assert cells[..|cells|] == cells;
    }

    method EvaluateRange(
      rangeStart: SimpleCellAddress, rangeEnd: SimpleCellAddress,
      functionName: string, funcToCalc: seq<int> -> int
    ) returns (value: Result<int, string>)
      requires ReadyToEvaluate(graph, rangeMapping, functionName, AbsoluteCellRange(rangeStart, rangeEnd))
      modifies this
      ensures var e := EvaluateRangeSpec(graph, old(rangeMapping), rangeStart, rangeEnd, functionName, funcToCalc);
        value == e.result && rangeMapping == e.mapping
    {
      var key := AbsoluteCellRange(rangeStart, rangeEnd);
      if key !in rangeMapping {
        return Failure(RANGE_NOT_IN_GRAPH);
      }
      var cache := rangeMapping[key];
      if functionName in cache && cache[functionName] != 0 {
        return Success(cache[functionName]);
      }
      var range := NewAbsoluteCellRange(rangeStart, rangeEnd);
      if range.Failure? {
        return Failure(range.error);
      }
      var rangeValues := GetRangeValues(functionName, range.value);
      var computed := funcToCalc(rangeValues);
      rangeMapping := rangeMapping[key := cache[functionName := computed]];
      return Success(computed);
    }

    method Sum(args: seq<SumArg>) returns (result: Result<int, string>)
      requires SumReady(graph, rangeMapping, args)
      modifies this
      ensures var e := SumFrom(graph, old(rangeMapping), args, 0);
        result == e.result && rangeMapping == e.mapping
    {
      var currentSum := 0;
      var i := 0;
      while i < |args|
        invariant 0 <= i <= |args|
        invariant SumReady(graph, rangeMapping, args[i..])
        invariant SumFrom(graph, old(rangeMapping), args, 0) == SumFrom(graph, rangeMapping, args[i..], currentSum)
      {
        assert args[i..][0] == args[i] && args[i..][1..] == args[i + 1..];
        var value;
        match args[i] {
          case CellRangeArg(rangeStart, rangeEnd) =>
            value := EvaluateRange(rangeStart, rangeEnd, SUM, SumOfValues);
          case OtherArg(v) =>
            value := Success(v);
        }
        if value.Failure? {
          return value;
        }
        currentSum := Add(currentSum, value.value);
        i := i + 1;
      }
      assert args[i..] == [];
      return Success(currentSum);
    }
  }
}
