# HyperFormula: cell ranges, cached SUM aggregation and the MINIFS combiner

This project models three pieces of the HyperFormula spreadsheet engine and
proves properties of them in Dafny.

- **Absolute cell ranges** (`absolute_cell_range.dfy`, module
  `AbsoluteCellRanges`). A range is a pair of absolute addresses
  `(sheet, col, row)`. The model covers the constructor that rejects corners
  on different sheets, width, height and size, the overlap and containment
  tests, `spanFrom`, `fromCoordinates`, `withStart` and `withEnd`, the
  dimension comparisons, the bounds-checked `getAddress`, and the row-major
  cell generator. The generator is a method with the source's two nested
  loops, proved equal to a recursive specification of the cells. The in-place
  `shiftByRows` and `expandByRows` are methods of the class `ShiftableRange`,
  whose fields are the two corners.
- **SUM with per-range caching** (`numeric_aggregation.dfy`, module
  `NumericAggregation`). A range vertex holds one cached aggregate per function
  name. `evaluateRange` returns a truthy cached value as it is. Otherwise it
  computes the value from `getRangeValues` and stores it under the function
  name. `getRangeValues` starts with the cached value of a smaller range when
  the graph has an edge from it, then lists the values of the remaining cells
  in row-major order. `reduceSum` is the left fold of addition from 0. The
  class `NumericAggregationPlugin` holds the range mapping it updates. Each
  method is proved equal to a specification function, and the lemmas are
  stated about those functions.
- **MINIFS** (`minif.dfy`, module `Minif`, with the decimal and comma helpers
  of `strings.dfy`). The model covers the error-aware, number-preferring
  binary `min`, the string cache key built from the condition ranges, and the
  loop that pairs condition ranges with parsed criteria and stops with
  `CellError(VALUE, BadCriterion)` at the first criterion that does not parse.

`cell.dfy` holds the cell address and cell error types. `results.dfy` holds
`Option` and `Result`, which stand for `undefined`, a thrown error and a
returned value.

The collaborators the plugins call are parameters of the model. For SUM these
are the graph's edges, the current cell values and the smaller-range lookup,
grouped in the `Graph` value. For MINIFS they are the criterion parser and
the criterion computation. Values are integers, and the scalar `add` is
integer addition.

## Model

| member | source | states |
|---|---|---|
| AbsoluteCellRanges.NewAbsoluteCellRange | src/AbsoluteCellRange.ts:34-41 | construction fails with DIFFERENT_SHEETS_ERROR exactly when the corners are on different sheets; otherwise it keeps both corners and its sheet is the sheet of both |
| AbsoluteCellRanges.AbsoluteCellRange.Width | src/AbsoluteCellRange.ts:47-49 | the width is at least 1 exactly when the start column is not after the end column |
| AbsoluteCellRanges.AbsoluteCellRange.Height | src/AbsoluteCellRange.ts:51-53 | the height is at least 1 exactly when the start row is not after the end row |
| AbsoluteCellRanges.AbsoluteCellRange.Size | src/AbsoluteCellRange.ts:55-57 | a well-formed range has size at least 1 and at least its width and its height |
| AbsoluteCellRanges.AbsoluteCellRange.WithStart | src/AbsoluteCellRange.ts:85-87 | fails with DIFFERENT_SHEETS_ERROR exactly when the new start is on another sheet than the end; otherwise the start is replaced and the end kept |
| AbsoluteCellRanges.AbsoluteCellRange.WithEnd | src/AbsoluteCellRange.ts:89-91 | fails with DIFFERENT_SHEETS_ERROR exactly when the new end is on another sheet than the start; otherwise the end is replaced and the start kept |
| AbsoluteCellRanges.AbsoluteCellRange.SameDimensionsAs | src/AbsoluteCellRange.ts:93-99 | equal width and height imply equal size |
| AbsoluteCellRanges.AbsoluteCellRange.GetAddress | src/AbsoluteCellRange.ts:113-118 | fails with "Index out of bound" exactly when the offsets are outside 0..width-1 and 0..height-1; otherwise the address lies at those offsets from the start and is in the range |
| AbsoluteCellRanges.AbsoluteCellRange.ShiftedByRows | src/AbsoluteCellRange.ts:139-142 | both corner rows move by n; the sheet, the columns, the width and the height are kept |
| AbsoluteCellRanges.AbsoluteCellRange.ExpandedByRows | src/AbsoluteCellRange.ts:144-146 | expanding keeps the start, the sheet and the width, and the height grows by the given number of rows |
| AbsoluteCellRanges.SpanFrom | src/AbsoluteCellRange.ts:23-28 | the range starts at the given corner, lies on its sheet, and has the given width and height |
| AbsoluteCellRanges.FromCoordinates | src/AbsoluteCellRange.ts:30-32 | the range lies on the given sheet and holds exactly the addresses on that sheet within the given column and row bounds |
| AbsoluteCellRanges.OverlapMeansCommonCell | src/AbsoluteCellRange.ts:59-70 | overlap is symmetric and false across sheets; two well-formed ranges overlap exactly when some address lies in both |
| AbsoluteCellRanges.CornersInRange | src/AbsoluteCellRange.ts:72-83 | a well-formed range holds its start corner, and its end corner when both corners share a sheet |
| AbsoluteCellRanges.GenerateCells | src/AbsoluteCellRange.ts:101-111 | the nested row and column loops yield exactly the cells of the range in row-major order |
| AbsoluteCellRanges.CellsCount | src/AbsoluteCellRange.ts:101-111 | a well-formed range yields size() cells and any other range none; a range whose start row comes after its end row yields nothing |
| AbsoluteCellRanges.CellsMembership | src/AbsoluteCellRange.ts:101-111 | an address is yielded exactly when addressInRange holds for it |
| AbsoluteCellRanges.CellsRowMajor | src/AbsoluteCellRange.ts:101-111 | the yielded cells are strictly increasing in row-major order, so none repeats |
| AbsoluteCellRanges.CellsAtGetAddress | src/AbsoluteCellRange.ts:113-118 | the cell yielded at position row * width + col is getAddress(col, row) |
| AbsoluteCellRanges.CellsShifted | src/AbsoluteCellRange.ts:139-142 | after shifting by n rows the range yields the same cells in the same order, each n rows lower |
| AbsoluteCellRanges.CellsSplitByRows | src/AbsoluteCellRange.ts:101-111 | cutting a range between two rows splits its cells into the upper part's cells followed by the lower part's cells |
| AbsoluteCellRanges.ShiftableRange.constructor | src/AbsoluteCellRange.ts:34-41 | the object holds the given corners, which the constructor requires to share a sheet |
| AbsoluteCellRanges.ShiftableRange.ShiftByRows | src/AbsoluteCellRange.ts:139-142 | both corner rows move by the given number in place, and nothing else changes |
| AbsoluteCellRanges.ShiftableRange.ExpandByRows | src/AbsoluteCellRange.ts:144-146 | only the end row moves, by the given number, in place |
| NumericAggregation.ReduceSum | src/interpreter/plugin/NumericAggregationPlugin.ts:99-105 | the accumulator loop computes the left fold of add from 0 over the values in order |
| NumericAggregation.SumOfValuesAppend | src/interpreter/plugin/NumericAggregationPlugin.ts:99-105 | the fold over a concatenation adds the folds over the two parts |
| NumericAggregation.RangeValuesLength | src/interpreter/plugin/NumericAggregationPlugin.ts:83-96 | the list holds one entry for a reused smaller range, if any, plus one per remaining cell, which is size() of a well-formed remaining range |
| NumericAggregation.SmallerRangeReuseIsSound | src/interpreter/plugin/NumericAggregationPlugin.ts:85-93 | when the lookup splits the range into the smaller range's cells followed by the rest (or returns the whole range as rest when it finds nothing), the graph holds the edge for a found smaller range, and its cached SUM is the sum of its cells, summing the list equals summing every cell of the range |
| NumericAggregation.SmallerFoundWithoutEdge | src/interpreter/plugin/NumericAggregationPlugin.ts:85-93 | when the lookup finds a smaller range but the graph has no edge from it, the list holds only the rest cells' values; with a correct split its SUM falls short of the range's by the smaller range's SUM |
| NumericAggregation.GrowingRangeSplits | src/interpreter/plugin/NumericAggregationPlugin.ts:85-93 | a range grown downwards yields the old range's cells followed by the new rows' cells, the split the reuse relies on |
| NumericAggregation.EvaluateRangeSpec | src/interpreter/plugin/NumericAggregationPlugin.ts:54-72 | fails with "Range does not exists in graph" exactly when no vertex has the bounds; a truthy cached value is returned with nothing written; an error writes nothing; a computed value is stored under the function name only, on that vertex only |
| NumericAggregation.EvaluateRangeTwice | src/interpreter/plugin/NumericAggregationPlugin.ts:63-69 | on a miss, a cached 0 included, the value is computed from the range values and stored; a second call right after a truthy result returns it and writes nothing |
| NumericAggregation.SumOfScalars | src/interpreter/plugin/NumericAggregationPlugin.ts:33-44 | without range arguments sum is the fold of add over the argument values and touches no cache; with no arguments it is 0 |
| NumericAggregation.SumKeepsOtherCaches | src/interpreter/plugin/NumericAggregationPlugin.ts:33-44 | sum adds no range vertex and changes no cached value other than the "SUM" entries |
| NumericAggregation.NumericAggregationPlugin.GetRangeValues | src/interpreter/plugin/NumericAggregationPlugin.ts:83-96 | the pushes build the smaller range's cached value, when an edge links it, followed by each remaining cell's value in row-major order |
| NumericAggregation.NumericAggregationPlugin.EvaluateRange | src/interpreter/plugin/NumericAggregationPlugin.ts:54-72 | the returned value or error and the new range mapping are those of EvaluateRangeSpec |
| NumericAggregation.NumericAggregationPlugin.Sum | src/interpreter/plugin/NumericAggregationPlugin.ts:33-44 | the result and the new range mapping are those of folding the arguments in order, range arguments through evaluateRange under "SUM" with reduceSum, stopping at the first error |
| Strings.IntToStringInjective | src/interpreter/plugin/MinifPlugin.ts:29-34 | two integers have the same decimal form exactly when they are equal |
| Strings.SplitJoin | src/interpreter/plugin/MinifPlugin.ts:35 | cutting a comma join at its commas gives back the parts when no part holds a comma |
| Minif.Min | src/interpreter/plugin/MinifPlugin.ts:38-54 | an error on the left wins, then an error on the right; two numbers give the smaller; one number gives that number; otherwise 0; the result is always a number or an error |
| Minif.MinCommutes | src/interpreter/plugin/MinifPlugin.ts:38-54 | min is commutative unless both arguments are errors, when the left one wins |
| Minif.MinIdempotent | src/interpreter/plugin/MinifPlugin.ts:43-45 | the min of a number or error with itself is itself |
| Minif.FoldMinFromError | src/interpreter/plugin/MinifPlugin.ts:39-40 | once the accumulator is an error, folding min keeps it |
| Minif.FoldMinFromNumber | src/interpreter/plugin/MinifPlugin.ts:38-54 | folding min from a number gives an error exactly when some value is one, and then the first such; otherwise a number no greater than the start and every number, equal to one of them |
| Minif.MinifCacheKeyComponents | src/interpreter/plugin/MinifPlugin.ts:27-36 | the key splits at its commas into "MINIF" and then sheet, start column and start row of each condition in order: 1 + 3n components |
| Minif.MinifCacheKeyInjective | src/interpreter/plugin/MinifPlugin.ts:27-36 | two condition lists have the same key exactly when their ranges have the same sheets and start corners in the same order |
| Minif.ParsedConditions | src/interpreter/plugin/MinifPlugin.ts:77-89 | pairing the arguments yields half as many conditions as there are arguments |
| Minif.Minifs | src/interpreter/plugin/MinifPlugin.ts:76-97 | when some criterion does not parse the result is CellError(VALUE, BadCriterion) and the computation is not used; otherwise the result is the computation on the values range and the conditions in argument order |

## Left out

- `matrixFromPlainValues` is not modelled. It depends on JavaScript's `Number()` string parsing, `NaN`, a matrix class and the sheet lookup, none of which is part of this model.
- `fromCellRange` and `getAbsoluteAddress` are not modelled: resolving a relative address is done by `CellAddress.toSimpleCellAddress`, which is not part of this model. A SUM range argument is given by its absolute corners (`SumArg.CellRangeArg`).
- `toString` of a range is not modelled.
- NumericAggregation.Add: integer addition. The source's `add` also propagates cell errors and works on floating-point numbers; its file is not part of this model.
- Minif.Min: `Math.min` on integers. Floating-point cases (`NaN`, `-0`) are not modelled.
- Minif.FoldMinFromNumber: the fold starts from a number. The `Number.POSITIVE_INFINITY` initial value and the NUM error it turns into when no value matches are not modelled.
- Minif.MinifCacheKeyComponents: the key is modelled only for conditions whose range value holds a range (`HasRange`). The source asserts the range is present and would fail on a missing one. Conditions given as a scalar or as a computed array are range values without a range, and test/interpreter/function-minifs.spec.ts:52-57 and :82-93 evaluate them normally, so the key is evidently built only when every condition has a range; `CriterionFunctionCompute`, which decides that, is not part of this model.
- Minif.MinifCacheKeyInjective: likewise stated only for conditions whose range value holds a range.
- `CriterionFunctionCompute`, `criterionBuilder.fromCellValue` and the argument validation of `runFunction` are parameters of `Minif.Minifs`. `Minif.PairedArgs` states what validation hands over: an even number of arguments, each condition argument a range value.
- The range mapping, the vertices' function caches, `graph.existsEdge`, `findSmallerRange` and `addressMapping.getCellValue` are maps and function values in `NumericAggregation.Graph` and `RangeMapping`. A range vertex is identified by its exact corners.
- NumericAggregation.SmallerRangeReuseIsSound: the graph is assumed to hold an edge from every smaller range the lookup finds. The lookup is not given the graph, and the rest range is read whether or not the edge exists. The graph builder that adds these edges is not part of this model. `SmallerFoundWithoutEdge` states what the list holds when the edge is missing.
- NumericAggregation.NumericAggregationPlugin.GetRangeValues: the two non-null assertions of the source become preconditions. The current range's vertex is taken to exist, and a reused smaller range is taken to hold a value for the function (`SmallerValueCached`).
- NumericAggregation.NumericAggregationPlugin.Sum: a non-range argument is given by the value `evaluateAst` returns. Any cache writes made while evaluating it are not modelled.
- AbsoluteCellRanges.GenerateCells: the generator is lazy in the source; the model collects every cell it yields into a sequence. `generateCellsFromRangeGenerator` as imported from the graph builder is taken to yield the same cells as the range method.
- AbsoluteCellRanges.ShiftableRange: the corners are values. The source mutates the `start` and `end` address objects, which other ranges may share; that aliasing is not modelled.
- The dependency graph, recalculation and the lazy AST transformation service are not part of this model; `src/index.ts` only re-exports them. The benchmark and the test files are not modelled.
