/**
 * What `CsvTypeValidator` (src/validator.py) decides, as functions: the check of one value
 * against the pattern registered for its column type, the `all(...)` over a row, which stops at
 * the first failing value, and the whole `validate` filter under each bad-line mode.
 */
module ValidatorSpec {
  import opened Wrappers
  import opened Tokens
  import opened Errors
  import opened Values
  import opened Rows

  /**
   * A compiled pattern: its source text, quoted in diagnostics, and what `pattern.match` answers
   * for a text. The regular-expression engine is not part of this model; `matches` stands for it.
   */
  datatype Pattern = Pattern(pattern: string, matches: string -> bool)

  /** A value passes when its column type has a pattern and its text matches that pattern. */
  predicate Passes(typePatternMap: map<string, Pattern>, v: CsvValue) {
    v.columnType in typePatternMap && typePatternMap[v.columnType].matches(v.token.value)
  }

  /** A row passes when every one of its values does. */
  predicate RowPasses(typePatternMap: map<string, Pattern>, row: CsvRow) {
    forall k :: 0 <= k < |row.values| ==> Passes(typePatternMap, row.values[k])
  }

  /**
   * `_check_value`: the error it hands to `_handle_error`, or `None` when the value passes. An
   * unregistered column type is reported as unknown, a text that does not match as a wrong format.
   */
  function CheckValue(typePatternMap: map<string, Pattern>, v: CsvValue): (r: Option<CsvError>)
    ensures r.None? <==> Passes(typePatternMap, v)
    ensures r.Some? ==> r.value.ValidatorError? && r.value.vtoken == v.token
    ensures r.Some? ==> (r.value.vkind.UnknownColumnType? <==> v.columnType !in typePatternMap)
    ensures r.Some? && r.value.vkind.WrongTypeFormat? ==>
              r.value.vkind == WrongTypeFormat(v.token.value, typePatternMap[v.columnType].pattern)
  {
    if v.columnType !in typePatternMap then
      Some(ValidatorError(UnknownColumnType(v.columnType), v.token))
    else
      var pattern := typePatternMap[v.columnType];
      if !pattern.matches(v.token.value) then
        Some(ValidatorError(WrongTypeFormat(v.token.value, pattern.pattern), v.token))
      else
        None
  }

  /**
   * `all(map(self._check_value, values))`: the error of the first failing value, the only value
   * whose failure is handled; `None` when every value passes.
   */
  function FirstFailure(typePatternMap: map<string, Pattern>, values: seq<CsvValue>): (r: Option<CsvError>)
    ensures r.None? <==> forall k :: 0 <= k < |values| ==> Passes(typePatternMap, values[k])
    ensures r.Some? ==> exists k :: 0 <= k < |values| && r == CheckValue(typePatternMap, values[k])
                                    && forall j :: 0 <= j < k ==> Passes(typePatternMap, values[j])
    decreases |values|
  {
    if |values| == 0 then None
    else
      match CheckValue(typePatternMap, values[0])
      case Some(e) => Some(e)
      case None =>
        var r := FirstFailure(typePatternMap, values[1..]);
        assert forall k :: 1 <= k < |values| ==> values[k] == values[1..][k - 1];
        r
  }

  /** A run of `validate`: the rows it yields, the errors it handles, and the one it raises, if any. */
  datatype Validation = Validation(passed: seq<CsvRow>, handled: seq<CsvError>, raised: Option<CsvError>)

  /**
   * `validate` over `rows`: a passing row is yielded; a failing row is dropped after its first
   * failure is handled, which ends the run in ERROR mode.
   */
  function ValidateRows(typePatternMap: map<string, Pattern>, mode: BadLineMode, rows: seq<CsvRow>): Validation
    decreases |rows|
  {
    if |rows| == 0 then Validation([], [], None)
    else
      match FirstFailure(typePatternMap, rows[0].values)
      case None =>
        var rest := ValidateRows(typePatternMap, mode, rows[1..]);
        rest.(passed := [rows[0]] + rest.passed)
      case Some(e) =>
        if mode == RaiseError then Validation([], [e], Some(e))
        else
          var rest := ValidateRows(typePatternMap, mode, rows[1..]);
          rest.(handled := [e] + rest.handled)
  }

  /**
   * Only ERROR mode raises, and what it raises is the last error handled; every handled error is
   * a validator error.
   */
  lemma {:induction false} ValidateRowsShape(typePatternMap: map<string, Pattern>, mode: BadLineMode, rows: seq<CsvRow>)
    ensures var r := ValidateRows(typePatternMap, mode, rows);
            && (r.raised.Some? ==> mode == RaiseError && |r.handled| > 0 && r.raised.value == r.handled[|r.handled| - 1])
            && (forall k :: 0 <= k < |r.handled| ==> r.handled[k].ValidatorError?)
    decreases |rows|
  {
    if |rows| > 0 {
      ValidateRowsShape(typePatternMap, mode, rows[1..]);
    }
  }

  /** The rows that pass, in their input order. */
  function PassingRows(typePatternMap: map<string, Pattern>, rows: seq<CsvRow>): seq<CsvRow>
    decreases |rows|
  {
    if |rows| == 0 then []
    else (if RowPasses(typePatternMap, rows[0]) then [rows[0]] else []) + PassingRows(typePatternMap, rows[1..])
  }

  /** A row with no values always passes, and `all` on it handles no error. */
  lemma EmptyRowPasses(typePatternMap: map<string, Pattern>)
    ensures RowPasses(typePatternMap, CsvRow([]))
    ensures FirstFailure(typePatternMap, []) == None
  {
  }

  /**
   * WARNING mode: nothing is raised; the yielded rows are exactly the passing rows, unchanged
   * and in order; one error is handled for each row dropped.
   */
  lemma {:induction false} WarnFiltersRows(typePatternMap: map<string, Pattern>, rows: seq<CsvRow>)
    ensures var r := ValidateRows(typePatternMap, Warn, rows);
            && r.raised.None?
            && r.passed == PassingRows(typePatternMap, rows)
            && |r.handled| + |r.passed| == |rows|
    decreases |rows|
  {
    if |rows| > 0 {
      WarnFiltersRows(typePatternMap, rows[1..]);
    }
  }

  /** ERROR mode: the run ends without raising exactly when every row passes, and then yields every row. */
  lemma {:induction false} ErrorModeAllPass(typePatternMap: map<string, Pattern>, rows: seq<CsvRow>)
    ensures var r := ValidateRows(typePatternMap, RaiseError, rows);
            && (r.raised.None? <==> forall k :: 0 <= k < |rows| ==> RowPasses(typePatternMap, rows[k]))
            && (r.raised.None? ==> r.passed == rows && r.handled == [])
    decreases |rows|
  {
    if |rows| > 0 {
      ErrorModeAllPass(typePatternMap, rows[1..]);
      assert forall k :: 1 <= k < |rows| ==> rows[k] == rows[1..][k - 1];
      assert rows == [rows[0]] + rows[1..];
    }
  }

  /** The run stopped at row `k`: the rows before it passed and were yielded, its first failure was raised. */
  predicate StoppedAt(typePatternMap: map<string, Pattern>, rows: seq<CsvRow>, r: Validation, k: nat) {
    && k < |rows|
    && (forall j :: 0 <= j < k ==> RowPasses(typePatternMap, rows[j]))
    && r.passed == rows[..k]
    && r.raised == FirstFailure(typePatternMap, rows[k].values)
    && r.raised.Some?
    && r.handled == [r.raised.value]
  }

  /**
   * ERROR mode: a run that raises yields the rows before the first failing row and handles and
   * raises the first failure of that row, and nothing else.
   */
  lemma {:induction false} ErrorModeStopsAtFirstBadRow(typePatternMap: map<string, Pattern>, rows: seq<CsvRow>)
    ensures var r := ValidateRows(typePatternMap, RaiseError, rows);
            r.raised.Some? ==> exists k :: StoppedAt(typePatternMap, rows, r, k)
    decreases |rows|
  {
    var r := ValidateRows(typePatternMap, RaiseError, rows);
    if |rows| > 0 && r.raised.Some? {
      if FirstFailure(typePatternMap, rows[0].values).Some? {
        assert rows[..0] == [];
        assert StoppedAt(typePatternMap, rows, r, 0);
      } else {
        ErrorModeStopsAtFirstBadRow(typePatternMap, rows[1..]);
        var rest := ValidateRows(typePatternMap, RaiseError, rows[1..]);
        var k: nat :| StoppedAt(typePatternMap, rows[1..], rest, k);
        assert forall j :: 1 <= j < |rows| ==> rows[j] == rows[1..][j - 1];
        assert rows[..k + 1] == [rows[0]] + rows[1..][..k];
        assert StoppedAt(typePatternMap, rows, r, k + 1);
      }
    }
  }
}
