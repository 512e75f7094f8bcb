/** A typed value (src/value.py): its column type and the value token it came from. */
module Values {
  import opened Tokens

  /** `CsvValue`; its fields are never reassigned, so it is a value. */
  datatype CsvValue = CsvValue(columnType: string, token: ValueToken)
  {
    /** `get_column_type`. */
    function GetColumnType(): string {
      columnType
    }

    /** `get_value`: the token's text. */
    function GetValue(): string {
      token.value
    }

    /** `debug_get_token`. */
    function DebugGetToken(): ValueToken {
      token
    }
  }

  /** A value gives back exactly what it was built from; nothing can change it afterwards. */
  lemma GettersReturnConstruction(columnType: string, token: ValueToken)
    ensures var v := CsvValue(columnType, token);
            && v.GetColumnType() == columnType
            && v.GetValue() == token.value
            && v.DebugGetToken() == token
  {
  }
}
