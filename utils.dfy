/** `row_to_dict` (src/utils.py): a row as a map from column type to text. */
module Utils {
  import opened Wrappers
  import opened Values
  import opened Rows

  /** The text of the last value of the given column type, if any: the write that survives. */
  function LastTextOf(values: seq<CsvValue>, columnType: string): Option<string> {
    if |values| == 0 then None
    else if values[|values| - 1].columnType == columnType then Some(values[|values| - 1].GetValue())
    else LastTextOf(values[..|values| - 1], columnType)
  }

  /** The column types that occur in the values. */
  function ColumnTypes(values: seq<CsvValue>): set<string> {
    set i | 0 <= i < |values| :: values[i].columnType
  }

  /** `row_to_dict`: later values overwrite earlier ones of the same column type. */
  method RowToDict(row: CsvRow) returns (d: map<string, string>)
    ensures d.Keys == ColumnTypes(row.values)
    ensures forall t :: t in d ==> LastTextOf(row.values, t) == Some(d[t])
  {
    d := map[];
    var values := row.GetAllValues();
    for k := 0 to |values|
      invariant d.Keys == ColumnTypes(values[..k])
      invariant forall t :: t in d ==> LastTextOf(values[..k], t) == Some(d[t])
    {
      assert values[..k + 1][..k] == values[..k];
      d := d[values[k].GetColumnType() := values[k].GetValue()];
    }
    assert values[..|values|] == values;
  }

  /** Appending a value adds its column type to the row's column types. */
  lemma ColumnTypesSnoc(values: seq<CsvValue>)
    requires |values| > 0
    ensures ColumnTypes(values) == ColumnTypes(values[..|values| - 1]) + {values[|values| - 1].columnType}
  {
    var init := values[..|values| - 1];
    forall t ensures t in ColumnTypes(values) <==> t in ColumnTypes(init) + {values[|values| - 1].columnType} {
      if t in ColumnTypes(values) {
        var i :| 0 <= i < |values| && values[i].columnType == t;
        if i < |values| - 1 { assert init[i] == values[i]; }
      }
      if t in ColumnTypes(init) {
        var i :| 0 <= i < |init| && init[i].columnType == t;
        assert values[i] == init[i];
      }
    }
  }

  /** A column type has a last value exactly when it occurs in the row. */
  lemma {:induction false} LastTextOfExists(values: seq<CsvValue>, columnType: string)
    ensures LastTextOf(values, columnType).Some? <==> columnType in ColumnTypes(values)
  {
    if |values| > 0 {
      LastTextOfExists(values[..|values| - 1], columnType);
      ColumnTypesSnoc(values);
    }
  }

  /** The surviving text is that of a value of that type after which no value of that type follows. */
  lemma {:induction false} LastTextOfIsLastWrite(values: seq<CsvValue>, columnType: string)
    requires LastTextOf(values, columnType).Some?
    ensures exists i :: 0 <= i < |values| && values[i].columnType == columnType
                        && values[i].GetValue() == LastTextOf(values, columnType).value
                        && forall j :: i < j < |values| ==> values[j].columnType != columnType
  {
    var n := |values| - 1;
    if values[n].columnType != columnType {
      var init := values[..n];
      LastTextOfIsLastWrite(init, columnType);
      var i :| 0 <= i < |init| && init[i].columnType == columnType
               && init[i].GetValue() == LastTextOf(init, columnType).value
               && forall j :: i < j < |init| ==> init[j].columnType != columnType;
      assert values[i] == init[i];
      forall j | i < j < |values| ensures values[j].columnType != columnType {
        if j < n { assert values[j] == init[j]; }
      }
    }
  }

  /** A row never has more distinct column types than values. */
  lemma {:induction false} ColumnTypesBound(values: seq<CsvValue>)
    ensures |ColumnTypes(values)| <= |values|
  {
    if |values| > 0 {
      ColumnTypesBound(values[..|values| - 1]);
      ColumnTypesSnoc(values);
    }
  }

  /** What `row_to_dict` promises: at most one key per value, no keys for an empty row, and each
      key bound to the text of the last value of that column type. */
  lemma RowToDictProperties(row: CsvRow, d: map<string, string>)
    requires d.Keys == ColumnTypes(row.values)
    requires forall t :: t in d ==> LastTextOf(row.values, t) == Some(d[t])
    ensures |d| <= |row.values|
    ensures row.values == [] ==> d == map[]
    ensures forall t :: t in d ==>
              (exists i :: 0 <= i < |row.values| && row.values[i].columnType == t
                           && row.values[i].GetValue() == d[t]
                           && forall j :: i < j < |row.values| ==> row.values[j].columnType != t)
  {
    ColumnTypesBound(row.values);
    assert |d| == |d.Keys|;
    forall t | t in d
      ensures exists i :: 0 <= i < |row.values| && row.values[i].columnType == t
                          && row.values[i].GetValue() == d[t]
                          && forall j :: i < j < |row.values| ==> row.values[j].columnType != t
    {
      LastTextOfIsLastWrite(row.values, t);
    }
  }
}
