/**
 * The MINIFS function plugin: the error-aware minimum used as the reducer,
 * the key under which a MINIFS result is cached, and the loop that pairs each
 * condition range with its parsed criterion before the computation runs.
 */
module Minif {
  import opened Results
  import opened Cell
  import opened AbsoluteCellRanges
  import opened Strings

  /** A scalar cell value: a number, a string, a boolean, the empty value or an error. */
  datatype RawScalarValue = Number(n: int) | Text(s: string) | Boolean(b: bool) | Empty | Error(e: CellError)

  /**
   * The binary minimum: an error on the left wins, then an error on the right;
   * a number beats a value that is not a number; two non-numbers give 0.
   */
  function Min(left: RawScalarValue, right: RawScalarValue): (r: RawScalarValue)
    ensures r.Number? || r.Error?
    ensures left.Error? ==> r == left
    ensures !left.Error? && right.Error? ==> r == right
    ensures left.Number? && right.Number? ==>
      r.Number? && r.n <= left.n && r.n <= right.n && (r == left || r == right)
    ensures !left.Error? && !right.Error? && left.Number? && !right.Number? ==> r == left
    ensures !left.Error? && !right.Error? && !left.Number? && right.Number? ==> r == right
    ensures !left.Error? && !right.Error? && !left.Number? && !right.Number? ==> r == Number(0)
  {
    if left.Error? then left
    else if right.Error? then right
    else if left.Number? then
      if right.Number? then Number(if left.n <= right.n then left.n else right.n) else left
    else if right.Number? then right
    else Number(0)
  }

  /** Min is commutative except when both sides are errors, where the left one wins. */
  lemma MinCommutes(left: RawScalarValue, right: RawScalarValue)
    ensures !(left.Error? && right.Error?) ==> Min(left, right) == Min(right, left)
    ensures left.Error? && right.Error? ==> Min(left, right) == left && Min(right, left) == right
  {
  }

  /** Min is idempotent on numbers and on errors. */
  lemma MinIdempotent(x: RawScalarValue)
    requires x.Number? || x.Error?
    ensures Min(x, x) == x
  {
  }

  /** Min used as a reducer from an initial accumulator, left to right. */
  function FoldMin(acc: RawScalarValue, values: seq<RawScalarValue>): (r: RawScalarValue)
    ensures (acc.Number? || acc.Error?) ==> (r.Number? || r.Error?)
    decreases |values|
  {
    if values == [] then acc else FoldMin(Min(acc, values[0]), values[1..])
  }

  lemma {:induction false} FoldMinFromError(acc: RawScalarValue, values: seq<RawScalarValue>)
    requires acc.Error?
    ensures FoldMin(acc, values) == acc
    decreases |values|
  {
    if values != [] {
      FoldMinFromError(Min(acc, values[0]), values[1..]);
    }
  }

  /**
   * Folding Min from a number yields the first error among the values if
   * there is one, and otherwise the least of the initial number and the
   * numbers among the values (values that are not numbers are skipped).
   */
  lemma {:induction false} FoldMinFromNumber(a: int, values: seq<RawScalarValue>)
    ensures FoldMin(Number(a), values).Error? <==> exists i :: 0 <= i < |values| && values[i].Error?
    ensures FoldMin(Number(a), values).Error? ==>
      exists i :: 0 <= i < |values| && values[i] == FoldMin(Number(a), values)
        && forall j :: 0 <= j < i ==> !values[j].Error?
    ensures FoldMin(Number(a), values).Number? ==>
      FoldMin(Number(a), values).n <= a
        && forall i :: 0 <= i < |values| && values[i].Number? ==> FoldMin(Number(a), values).n <= values[i].n
    ensures FoldMin(Number(a), values).Number? ==>
      FoldMin(Number(a), values).n == a
        || exists i :: 0 <= i < |values| && values[i] == FoldMin(Number(a), values)
    decreases |values|
  {
    if values != [] {
      var step := Min(Number(a), values[0]);
      var r := FoldMin(Number(a), values);
      assert r == FoldMin(step, values[1..]);
      if values[0].Error? {
        FoldMinFromError(step, values[1..]);
      } else {
        FoldMinFromNumber(step.n, values[1..]);
        if r.Error? {
          var i :| 0 <= i < |values[1..]| && values[1..][i] == r && forall j :: 0 <= j < i ==> !values[1..][j].Error?;
          assert values[i + 1] == r;
          assert forall j :: 0 <= j < i + 1 ==> !values[j].Error? by {
            forall j | 0 <= j < i + 1 ensures !values[j].Error? {
              if j > 0 { assert values[j] == values[1..][j - 1]; }
            }
          }
        } else {
          assert r.n == step.n || exists i :: 0 <= i < |values[1..]| && values[1..][i] == r;
          if r.n != step.n {
            var i :| 0 <= i < |values[1..]| && values[1..][i] == r;
            assert values[i + 1] == r;
          }
          forall i | 0 <= i < |values| && values[i].Number? ensures r.n <= values[i].n {
            if i > 0 { assert values[i] == values[1..][i - 1]; }
          }
        }
        if exists i :: 0 <= i < |values| && values[i].Error? {
          var i :| 0 <= i < |values| && values[i].Error?;
          assert i > 0 && values[1..][i - 1].Error?;
        }
      }
    }
  }

  // ---------------------------------------------------------------------------
  // The cache key.

  /** A range argument once evaluated; only the range it was read from matters here. */
  datatype SimpleRangeValue = SimpleRangeValue(range: Option<AbsoluteCellRange>)

  /** A condition range paired with its parsed criterion. */
  datatype Condition<C> = Condition(conditionRange: SimpleRangeValue, criterionPackage: C)

  predicate HasRange<C>(c: Condition<C>) { c.conditionRange.range.Some? }

  /** sheet, start column and start row of the condition's range, comma separated. */
  function ConditionString<C>(c: Condition<C>): string
    requires HasRange(c)
  {
    var range := c.conditionRange.range.value;
    IntToString(range.Sheet()) + "," + IntToString(range.start.col) + "," + IntToString(range.start.row)
  }

  function ConditionStrings<C>(conditions: seq<Condition<C>>): (strings: seq<string>)
    requires forall i :: 0 <= i < |conditions| ==> HasRange(conditions[i])
    ensures |strings| == |conditions|
    decreases |conditions|
  {
    if conditions == [] then [] else [ConditionString(conditions[0])] + ConditionStrings(conditions[1..])
  }

  /** "MINIF" followed by each condition's string, all joined with commas. */
  function MinifCacheKey<C>(conditions: seq<Condition<C>>): string
    requires forall i :: 0 <= i < |conditions| ==> HasRange(conditions[i])
  {
    Join(["MINIF"] + ConditionStrings(conditions))
  }

  /** The coordinates a condition contributes to the key. */
  function KeyCoordinates<C>(conditions: seq<Condition<C>>): (coords: seq<(int, int, int)>)
    requires forall i :: 0 <= i < |conditions| ==> HasRange(conditions[i])
    ensures |coords| == |conditions|
    decreases |conditions|
  {
    if conditions == [] then []
    else
      assert HasRange(conditions[0]);
      var range := conditions[0].conditionRange.range.value;
      [(range.Sheet(), range.start.col, range.start.row)] + KeyCoordinates(conditions[1..])
  }

  /** The comma-separated pieces of the key after "MINIF": three numbers per condition. */
  function KeyComponents(coords: seq<(int, int, int)>): (parts: seq<string>)
    ensures |parts| == 3 * |coords|
    ensures forall i :: 0 <= i < |parts| ==> ',' !in parts[i]
    decreases |coords|
  {
    if coords == [] then []
    else
      [IntToString(coords[0].0)] + ([IntToString(coords[0].1)] + ([IntToString(coords[0].2)]
        + KeyComponents(coords[1..])))
  }

  /** Joining three components in front of the rest of a key's components. */
  lemma JoinThree(a: string, b: string, c: string, parts: seq<string>)
    ensures Join([a] + ([b] + ([c] + parts)))
      == (a + "," + b + "," + c) + (if parts == [] then "" else "," + Join(parts))
  {
    JoinCons(a, [b] + ([c] + parts));
    JoinCons(b, [c] + parts);
    JoinCons(c, parts);
  }

  /** The first condition's coordinates head the key's coordinates. */
  lemma KeyCoordinatesHead<C>(conditions: seq<Condition<C>>)
    requires |conditions| >= 1
    requires forall i :: 0 <= i < |conditions| ==> HasRange(conditions[i])
    ensures HasRange(conditions[0])
    ensures var range := conditions[0].conditionRange.range.value;
      KeyCoordinates(conditions)[0] == (range.Sheet(), range.start.col, range.start.row)
    ensures KeyCoordinates(conditions)[1..] == KeyCoordinates(conditions[1..])
  {
    assert HasRange(conditions[0]);
  }

  lemma {:induction false} JoinConditionStrings<C>(conditions: seq<Condition<C>>)
    requires |conditions| >= 1
    requires forall i :: 0 <= i < |conditions| ==> HasRange(conditions[i])
    ensures Join(ConditionStrings(conditions)) == Join(KeyComponents(KeyCoordinates(conditions)))
    decreases |conditions|
  {
    assert HasRange(conditions[0]);
    var range := conditions[0].conditionRange.range.value;
    var a, b, c := IntToString(range.Sheet()), IntToString(range.start.col), IntToString(range.start.row);
    var head := a + "," + b + "," + c;
    var rest := conditions[1..];
    var parts := KeyComponents(KeyCoordinates(rest));
    var restStrings := ConditionStrings(rest);
    calc {
      Join(ConditionStrings(conditions));
      { assert ConditionStrings(conditions) == [head] + restStrings; }
      Join([head] + restStrings);
      { JoinCons(head, restStrings); }
      head + (if restStrings == [] then "" else "," + Join(restStrings));
      { if rest != [] { JoinConditionStrings(rest); } }
      head + (if parts == [] then "" else "," + Join(parts));
      { JoinThree(a, b, c, parts); }
      Join([a] + ([b] + ([c] + parts)));
      { KeyCoordinatesHead(conditions); }
      Join(KeyComponents(KeyCoordinates(conditions)));
    }
  }

  /** The key splits at its commas into "MINIF" and three numbers per condition, in order. */
  lemma MinifCacheKeyComponents<C>(conditions: seq<Condition<C>>)
    requires forall i :: 0 <= i < |conditions| ==> HasRange(conditions[i])
    ensures Split(MinifCacheKey(conditions)) == ["MINIF"] + KeyComponents(KeyCoordinates(conditions))
    ensures |Split(MinifCacheKey(conditions))| == 1 + 3 * |conditions|
  {
    var parts := ["MINIF"] + KeyComponents(KeyCoordinates(conditions));
    if conditions == [] {
      assert ["MINIF"] + ConditionStrings(conditions) == parts;
    } else {
      JoinConditionStrings(conditions);
      assert (["MINIF"] + ConditionStrings(conditions))[1..] == ConditionStrings(conditions);
      assert parts[1..] == KeyComponents(KeyCoordinates(conditions));
      assert MinifCacheKey(conditions) == Join(parts);
    }
    SplitJoin(parts);
  }

  lemma {:induction false} KeyComponentsInjective(xs: seq<(int, int, int)>, ys: seq<(int, int, int)>)
    requires KeyComponents(xs) == KeyComponents(ys)
    ensures xs == ys
    decreases |xs|
  {
    if xs != [] {
      assert ys != [];
      var kx, ky := KeyComponents(xs), KeyComponents(ys);
      assert kx[0] == IntToString(xs[0].0) && ky[0] == IntToString(ys[0].0);
      assert kx[1] == IntToString(xs[0].1) && ky[1] == IntToString(ys[0].1);
      assert kx[2] == IntToString(xs[0].2) && ky[2] == IntToString(ys[0].2);
      IntToStringInjective(xs[0].0, ys[0].0);
      IntToStringInjective(xs[0].1, ys[0].1);
      IntToStringInjective(xs[0].2, ys[0].2);
      assert kx[3..] == KeyComponents(xs[1..]) && ky[3..] == KeyComponents(ys[1..]);
      KeyComponentsInjective(xs[1..], ys[1..]);
      assert xs == [xs[0]] + xs[1..] && ys == [ys[0]] + ys[1..];
    }
  }

  lemma {:induction false} ConditionStringsByCoordinates<C>(xs: seq<Condition<C>>, ys: seq<Condition<C>>)
    requires forall i :: 0 <= i < |xs| ==> HasRange(xs[i])
    requires forall i :: 0 <= i < |ys| ==> HasRange(ys[i])
    requires KeyCoordinates(xs) == KeyCoordinates(ys)
    ensures ConditionStrings(xs) == ConditionStrings(ys)
    decreases |xs|
  {
    if xs != [] {
      assert KeyCoordinates(xs)[0] == KeyCoordinates(ys)[0];
      assert KeyCoordinates(xs)[1..] == KeyCoordinates(xs[1..]);
      assert KeyCoordinates(ys)[1..] == KeyCoordinates(ys[1..]);
      ConditionStringsByCoordinates(xs[1..], ys[1..]);
    }
  }

  /**
   * Two lists of conditions share a cache key exactly when their ranges have
   * the same sheets and start corners in the same order; nothing else about a
   * condition (its criterion, its end corner) enters the key.
   */
  lemma MinifCacheKeyInjective<C>(xs: seq<Condition<C>>, ys: seq<Condition<C>>)
    requires forall i :: 0 <= i < |xs| ==> HasRange(xs[i])
    requires forall i :: 0 <= i < |ys| ==> HasRange(ys[i])
    ensures MinifCacheKey(xs) == MinifCacheKey(ys) <==> KeyCoordinates(xs) == KeyCoordinates(ys)
  {
    if MinifCacheKey(xs) == MinifCacheKey(ys) {
      MinifCacheKeyComponents(xs);
      MinifCacheKeyComponents(ys);
      var kx, ky := KeyComponents(KeyCoordinates(xs)), KeyComponents(KeyCoordinates(ys));
      assert (["MINIF"] + kx)[1..] == kx && (["MINIF"] + ky)[1..] == ky;
      KeyComponentsInjective(KeyCoordinates(xs), KeyCoordinates(ys));
    }
    if KeyCoordinates(xs) == KeyCoordinates(ys) {
      ConditionStringsByCoordinates(xs, ys);
    }
  }

  // ---------------------------------------------------------------------------
  // Pairing conditions with criteria.

  /** An evaluated argument: a scalar or a range value. */
  datatype InterpreterValue = Scalar(raw: RawScalarValue) | RangeValue(value: SimpleRangeValue)

  /** The k-th condition range argument after the values range. */
  function ConditionArg(args: seq<InterpreterValue>, k: int): InterpreterValue
    requires 0 <= k < |args| / 2
  {
    args[2 * k]
  }

  /** The k-th criterion argument, the one after the k-th condition range. */
  function CriterionArg(args: seq<InterpreterValue>, k: int): InterpreterValue
    requires 0 <= k < |args| / 2
  {
    args[2 * k + 1]
  }

  /**
   * What argument validation hands the MINIFS body: range/criterion pairs,
   * each range already converted to a range value.
   */
  predicate PairedArgs(args: seq<InterpreterValue>) {
    |args| % 2 == 0 && forall k :: 0 <= k < |args| / 2 ==> ConditionArg(args, k).RangeValue?
  }

  predicate AllCriteriaParse<C>(args: seq<InterpreterValue>, fromCellValue: InterpreterValue -> Option<C>) {
    forall k :: 0 <= k < |args| / 2 ==> fromCellValue(CriterionArg(args, k)).Some?
  }

  /** The conditions, in argument order, when every criterion parses. */
  function ParsedConditions<C>(args: seq<InterpreterValue>, fromCellValue: InterpreterValue -> Option<C>): (conditions: seq<Condition<C>>)
    requires PairedArgs(args) && AllCriteriaParse(args, fromCellValue)
    ensures |conditions| * 2 == |args|
  {
    seq(|args| / 2, k requires 0 <= k < |args| / 2 =>
      Condition(ConditionArg(args, k).value, fromCellValue(CriterionArg(args, k)).value))
  }

  /**
   * The body MINIFS runs once its arguments are validated: walk the
   * (range, criterion) pairs in order, stop with a VALUE error at the first
   * criterion that does not parse, and otherwise hand the values range and the
   * conditions to the computation.
   */
  method Minifs<C>(
    values: SimpleRangeValue,
    args: seq<InterpreterValue>,
    fromCellValue: InterpreterValue -> Option<C>,
    compute: (SimpleRangeValue, seq<Condition<C>>) -> RawScalarValue
  ) returns (result: RawScalarValue)
    requires PairedArgs(args)
    ensures !AllCriteriaParse(args, fromCellValue) ==> result == Error(CellError(VALUE, BadCriterion))
    ensures AllCriteriaParse(args, fromCellValue) ==> result == compute(values, ParsedConditions(args, fromCellValue))
  {
    var conditions: seq<Condition<C>> := [];
    var i := 0;
    while i < |args|
      invariant 0 <= i <= |args| && i % 2 == 0
      invariant |conditions| == i / 2
      invariant forall k :: 0 <= k < i / 2 ==>
        fromCellValue(CriterionArg(args, k)).Some?
          && conditions[k] == Condition(ConditionArg(args, k).value, fromCellValue(CriterionArg(args, k)).value)
    {
      assert ConditionArg(args, i / 2) == args[i] && CriterionArg(args, i / 2) == args[i + 1];
      var conditionArg := args[i].value;
      var criterionPackage := fromCellValue(args[i + 1]);
      if criterionPackage.None? {
        return Error(CellError(VALUE, BadCriterion));
      }
      conditions := conditions + [Condition(conditionArg, criterionPackage.value)];
      i := i + 2;
    }
    assert conditions == ParsedConditions(args, fromCellValue);
    result := compute(values, conditions);
  }
}
