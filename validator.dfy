/**
 * `CsvTypeValidator` (src/validator.py): filters rows, passing on those whose every value matches
 * the pattern registered for its column type. `validate` is a generator; here it returns the rows
 * it would yield and the error it raises, if any.
 */
module Validator {
  import opened Wrappers
  import opened Errors
  import opened Values
  import opened Rows
  import opened ValidatorSpec

  /** A run of `validate` that has yielded `passed` and handled `handled`, followed by the run `rest`. */
  function Continued(passed: seq<CsvRow>, handled: seq<CsvError>, rest: Validation): Validation {
    Validation(passed + rest.passed, handled + rest.handled, rest.raised)
  }

  /** A passing row is yielded, and the run goes on with the next row. */
  lemma ValidatePassingRow(typePatternMap: map<string, Pattern>, mode: BadLineMode, rows: seq<CsvRow>, i: nat,
                           passed: seq<CsvRow>, handled: seq<CsvError>)
    requires i < |rows| && FirstFailure(typePatternMap, rows[i].values).None?
    ensures Continued(passed, handled, ValidateRows(typePatternMap, mode, rows[i..]))
            == Continued(passed + [rows[i]], handled, ValidateRows(typePatternMap, mode, rows[i + 1..]))
  {
    assert rows[i..][1..] == rows[i + 1..];
    var rest := ValidateRows(typePatternMap, mode, rows[i + 1..]);
    assert (passed + [rows[i]]) + rest.passed == passed + ([rows[i]] + rest.passed);
  }

  /** In WARNING mode a failing row is dropped after its first failure is handled, and the run goes on. */
  lemma ValidateDroppedRow(typePatternMap: map<string, Pattern>, rows: seq<CsvRow>, i: nat,
                           passed: seq<CsvRow>, handled: seq<CsvError>)
    requires i < |rows| && FirstFailure(typePatternMap, rows[i].values).Some?
    ensures Continued(passed, handled, ValidateRows(typePatternMap, Warn, rows[i..]))
            == Continued(passed, handled + [FirstFailure(typePatternMap, rows[i].values).value],
                         ValidateRows(typePatternMap, Warn, rows[i + 1..]))
  {
    assert rows[i..][1..] == rows[i + 1..];
    var rest := ValidateRows(typePatternMap, Warn, rows[i + 1..]);
    var e := FirstFailure(typePatternMap, rows[i].values).value;
    assert (handled + [e]) + rest.handled == handled + ([e] + rest.handled);
  }

  /** In ERROR mode the first failure of a failing row is handled and raised, and the run ends. */
  lemma ValidateRaisingRow(typePatternMap: map<string, Pattern>, rows: seq<CsvRow>, i: nat,
                           passed: seq<CsvRow>, handled: seq<CsvError>)
    requires i < |rows| && FirstFailure(typePatternMap, rows[i].values).Some?
    ensures var failure := FirstFailure(typePatternMap, rows[i].values);
            Continued(passed, handled, ValidateRows(typePatternMap, RaiseError, rows[i..]))
            == Validation(passed, handled + [failure.value], failure)
  {
    assert passed + [] == passed;
  }

  lemma AppendAssociative<T>(a: seq<T>, b: seq<T>, c: seq<T>)
    ensures (a + b) + c == a + (b + c)
  {
  }

  class CsvTypeValidator {
    var errorState: bool
    var hadError: bool
    const typePatternMap: map<string, Pattern>
    const badLineMode: BadLineMode
    /** The errors handled so far, in order: what WARNING mode prints. */
    ghost var log: seq<CsvError>

    constructor (typePatternMap: map<string, Pattern>, badLineMode: BadLineMode)
      ensures this.typePatternMap == typePatternMap && this.badLineMode == badLineMode
      ensures !errorState && !hadError && log == [] && ErrorsLogged()
    {
      errorState := false;
      hadError := false;
      this.typePatternMap := typePatternMap;
      this.badLineMode := badLineMode;
      log := [];
    }

    /** `_handle_error`: record the error; it is raised in ERROR mode and printed in WARNING mode. */
    method HandleError(error: CsvError) returns (raised: Option<CsvError>)
      modifies this
      ensures errorState && hadError && log == old(log) + [error]
      ensures raised == if badLineMode == RaiseError then Some(error) else None
    {
      errorState := true;
      hadError := true;
      log := log + [error];
      match badLineMode {
        case RaiseError =>
          return Some(error);
        case Warn =>
          return None;
      }
    }

    /**
     * `_check_value`: whether the value passes (the source's `None` after an unknown column type
     * counts as failing, as it does in `all`), handling the failure otherwise.
     */
    method CheckValue(value: CsvValue) returns (ok: bool, raised: Option<CsvError>)
      modifies this
      ensures ok <==> Passes(typePatternMap, value)
      ensures ok ==> unchanged(this)
      ensures !ok ==> errorState && hadError && log == old(log) + [ValidatorSpec.CheckValue(typePatternMap, value).value]
      ensures raised.Some? <==> !ok && badLineMode == RaiseError
      ensures raised.Some? ==> raised == ValidatorSpec.CheckValue(typePatternMap, value)
    {
      var valueType := value.GetColumnType();
      if valueType !in typePatternMap {
        raised := HandleError(ValidatorError(UnknownColumnType(valueType), value.DebugGetToken()));
        return false, raised;
      }
      var pattern := typePatternMap[valueType];
      var valueStr := value.GetValue();
      if !pattern.matches(valueStr) {
        raised := HandleError(ValidatorError(WrongTypeFormat(value.GetValue(), pattern.pattern), value.DebugGetToken()));
        return false, raised;
      }
      return true, None;
    }

    /** `had_error` is set exactly when some error has been handled. */
    ghost predicate ErrorsLogged()
      reads this
    {
      hadError <==> log != []
    }

    /** `had_errors`: whether `_handle_error` ever ran. */
    function HadErrors(): (r: bool)
      reads this
      requires ErrorsLogged()
      ensures r <==> log != []
    {
      hadError
    }

    /** `all(map(self._check_value, values))`: checks values in order up to the first failure. */
    method CheckAll(values: seq<CsvValue>) returns (ok: bool, raised: Option<CsvError>)
      modifies this
      ensures var failure := FirstFailure(typePatternMap, values);
              && (ok <==> failure.None?)
              && (ok ==> unchanged(this))
              && (!ok ==> errorState && hadError && log == old(log) + [failure.value])
              && raised == if badLineMode == RaiseError then failure else None
    {
      for k := 0 to |values|
        invariant unchanged(this)
        invariant forall j :: 0 <= j < k ==> Passes(typePatternMap, values[j])
        invariant FirstFailure(typePatternMap, values) == FirstFailure(typePatternMap, values[k..])
      {
        assert values[k..][1..] == values[k + 1..];
        ok, raised := CheckValue(values[k]);
        if !ok {
          return;
        }
      }
      assert values[|values|..] == [];
      return true, None;
    }

    /**
     * `validate`: the rows it yields, in order, and the error that ended it in ERROR mode. In
     * WARNING mode a failing row is dropped after its first failure is handled.
     */
    method Validate(rows: seq<CsvRow>) returns (passed: seq<CsvRow>, raised: Option<CsvError>)
      modifies this
      ensures var run := ValidateRows(typePatternMap, badLineMode, rows);
              && passed == run.passed && raised == run.raised
              && log == old(log) + run.handled
              && hadError == (old(hadError) || |run.handled| > 0)
              && errorState == (old(errorState) || |run.handled| > 0)
    {
      passed := [];
      ghost var handled: seq<CsvError> := [];
      ghost var run := ValidateRows(typePatternMap, badLineMode, rows);
      assert rows[0..] == rows;
      for i := 0 to |rows|
        invariant log == old(log) + handled
        invariant hadError == (old(hadError) || |handled| > 0)
        invariant errorState == (old(errorState) || |handled| > 0)
        invariant run == Continued(passed, handled, ValidateRows(typePatternMap, badLineMode, rows[i..]))
      {
        var row := rows[i];
        var values := row.GetAllValues();
        ghost var failure := FirstFailure(typePatternMap, values);
        var ok;
        ok, raised := CheckAll(values);
        if raised.Some? {
          ValidateRaisingRow(typePatternMap, rows, i, passed, handled);
          AppendAssociative(old(log), handled, [raised.value]);
          return;
        }
        if ok {
          ValidatePassingRow(typePatternMap, badLineMode, rows, i, passed, handled);
          passed := passed + [row];
        } else {
          ValidateDroppedRow(typePatternMap, rows, i, passed, handled);
          AppendAssociative(old(log), handled, [failure.value]);
          handled := handled + [failure.value];
        }
      }
      assert rows[|rows|..] == [];
      return passed, None;
    }
  }
}
