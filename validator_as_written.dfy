/**
 * `validate` (src/validator.py) as the code stands. `CsvValidatorError.__init__`
 * (src/validator.py:11-13) passes the message and the token to `CsvError.__init__` (error.py:2),
 * which takes the message alone, so building a validator error raises `TypeError`. Both places
 * in `_check_value` build one before calling `_handle_error` (the one at src/validator.py:49-54 is
 * not caught by `except KeyError`), so the first failing value ends `validate` in either mode,
 * with nothing handled and `had_error` still false. The rest of the model follows the evidently
 * intended behaviour, in which the error is built and handled (`ValidatorSpec.ValidateRows`).
 */
module ValidatorAsWritten {
  import opened Wrappers
  import opened Tokens
  import opened Errors
  import opened Values
  import opened Rows
  import opened ValidatorSpec

  /** What `validate` as written yields, and whether building a validator error raised `TypeError`. */
  datatype WrittenValidation = WrittenValidation(passed: seq<CsvRow>, typeErrorRaised: bool)

  /** `validate` as written: rows are yielded while they pass; the first failing row raises `TypeError`. */
  function ValidateAsWritten(typePatternMap: map<string, Pattern>, rows: seq<CsvRow>): WrittenValidation
    decreases |rows|
  {
    if |rows| == 0 then WrittenValidation([], false)
    else if !RowPasses(typePatternMap, rows[0]) then WrittenValidation([], true)
    else
      var rest := ValidateAsWritten(typePatternMap, rows[1..]);
      rest.(passed := [rows[0]] + rest.passed)
  }

  /**
   * As written, `validate` yields the longest prefix of passing rows, whatever the mode; it raises
   * `TypeError` exactly when some row fails, and then the row after that prefix is the failing one.
   */
  lemma {:induction false} AsWrittenYieldsPassingPrefix(typePatternMap: map<string, Pattern>, rows: seq<CsvRow>)
    ensures var w := ValidateAsWritten(typePatternMap, rows);
            && |w.passed| <= |rows| && w.passed == rows[..|w.passed|]
            && (forall k :: 0 <= k < |w.passed| ==> RowPasses(typePatternMap, rows[k]))
            && (w.typeErrorRaised <==> exists k :: 0 <= k < |rows| && !RowPasses(typePatternMap, rows[k]))
            && (w.typeErrorRaised ==> !RowPasses(typePatternMap, rows[|w.passed|]))
            && (!w.typeErrorRaised ==> w.passed == rows)
    decreases |rows|
  {
    if |rows| > 0 && RowPasses(typePatternMap, rows[0]) {
      var rest := rows[1..];
      AsWrittenYieldsPassingPrefix(typePatternMap, rest);
      var w := ValidateAsWritten(typePatternMap, rest);
      assert forall k :: 1 <= k < |rows| ==> rows[k] == rest[k - 1];
      assert rows[..|w.passed| + 1] == [rows[0]] + rest[..|w.passed|];
      if exists k :: 0 <= k < |rows| && !RowPasses(typePatternMap, rows[k]) {
        var k :| 0 <= k < |rows| && !RowPasses(typePatternMap, rows[k]);
        assert !RowPasses(typePatternMap, rest[k - 1]);
      }
      if !w.typeErrorRaised {
        assert rows == [rows[0]] + rest;
      }
    }
  }

  /**
   * The code as written raises `TypeError` exactly on the runs in which the intended validator
   * handles an error, in either mode; otherwise the two runs yield the same rows and raise
   * nothing. In ERROR mode they yield the same rows in every case.
   */
  lemma {:induction false} AsWrittenVersusIntended(typePatternMap: map<string, Pattern>, mode: BadLineMode, rows: seq<CsvRow>)
    ensures var w := ValidateAsWritten(typePatternMap, rows);
            var v := ValidateRows(typePatternMap, mode, rows);
            && (w.typeErrorRaised <==> v.handled != [])
            && (!w.typeErrorRaised ==> w.passed == v.passed && v.raised.None?)
            && (mode == RaiseError ==> w.passed == v.passed)
    decreases |rows|
  {
    if |rows| > 0 {
      AsWrittenVersusIntended(typePatternMap, mode, rows[1..]);
      assert FirstFailure(typePatternMap, rows[0].values).None? <==> RowPasses(typePatternMap, rows[0]);
    }
  }

  /** A text of one or more decimal digits, what the pattern `^\d+$` accepts. */
  predicate AllDigits(s: string) {
    |s| > 0 && forall i :: 0 <= i < |s| ==> '0' <= s[i] <= '9'
  }

  /**
   * A map with one column type `int` whose pattern takes only digits, and the rows `x` and `1`:
   * in WARNING mode the intended validator drops the first row and yields the second; the code as
   * written raises `TypeError` at the first row and yields nothing.
   */
  lemma WrongFormatRaisesTypeError()
    ensures var typePatternMap := map["int" := Pattern("^\\d+$", AllDigits)];
            var bad := CsvRow([CsvValue("int", CsvValueToken("x", 2, 1))]);
            var good := CsvRow([CsvValue("int", CsvValueToken("1", 3, 1))]);
            && ValidateRows(typePatternMap, Warn, [bad, good])
               == Validation([good], [ValidatorError(WrongTypeFormat("x", "^\\d+$"), CsvValueToken("x", 2, 1))], None)
            && ValidateAsWritten(typePatternMap, [bad, good]) == WrittenValidation([], true)
  {
    var typePatternMap := map["int" := Pattern("^\\d+$", AllDigits)];
    var bad := CsvRow([CsvValue("int", CsvValueToken("x", 2, 1))]);
    var good := CsvRow([CsvValue("int", CsvValueToken("1", 3, 1))]);
    assert !AllDigits("x") by {
      assert "x"[0] == 'x';
    }
    assert AllDigits("1");
    assert [bad, good][1..] == [good];
    assert [good][1..] == [];
    assert !RowPasses(typePatternMap, bad) by {
      assert !Passes(typePatternMap, bad.values[0]);
    }
    var e := ValidatorError(WrongTypeFormat("x", "^\\d+$"), CsvValueToken("x", 2, 1));
    assert FirstFailure(typePatternMap, bad.values) == Some(e) by {
      assert CheckValue(typePatternMap, bad.values[0]) == Some(e);
    }
    assert FirstFailure(typePatternMap, good.values) == None by {
      assert good.values[1..] == [];
    }
    assert ValidateRows(typePatternMap, Warn, [good]) == Validation([good], [], None);
  }
}
