/** A parsed row (src/row.py): the values of one logical line, in the order they were parsed. */
module Rows {
  import opened Wrappers
  import opened Values

  /** `CsvRow`. */
  datatype CsvRow = CsvRow(values: seq<CsvValue>)
  {
    /** `get_all_values`. */
    function GetAllValues(): seq<CsvValue> {
      values
    }

    /** `get_value`: a linear search that returns the first value of the given column type. */
    method GetValue(columnType: string) returns (r: Option<CsvValue>)
      ensures r.None? <==> forall i :: 0 <= i < |values| ==> values[i].columnType != columnType
      ensures r.Some? ==> exists i :: 0 <= i < |values| && values[i] == r.value
                                      && (forall j :: 0 <= j < i ==> values[j].columnType != columnType)
      ensures r.Some? ==> r.value in values && r.value.columnType == columnType
    {
      for k := 0 to |values|
        invariant forall j :: 0 <= j < k ==> values[j].columnType != columnType
      {
        if values[k].columnType != columnType {
          continue;
        }
        return Some(values[k]);
      }
      return None;
    }
  }

  /** `get_all_values` gives back the values a row was built from, in the same order. */
  lemma AllValuesInOrder(values: seq<CsvValue>)
    ensures CsvRow(values).GetAllValues() == values
  {
  }
}
