/** The header schema (src/parsing/csv_header.py): column types looked up by position. */
module Header {
  import opened Wrappers

  /** `CsvHeader`; it has no mutators, so a header is a value. */
  datatype CsvHeader = CsvHeader(columnDecls: seq<string>)
  {
    /** `get_column_count`. */
    function GetColumnCount(): nat {
      |columnDecls|
    }

    /** `lookup_column_type`: `None` stands for the `IndexError` of an index past the end. */
    function LookupColumnType(commaIndex: nat): (r: Option<string>)
      ensures r.Some? <==> commaIndex < GetColumnCount()
      ensures r.Some? ==> r.value == columnDecls[commaIndex]
    {
      if commaIndex < |columnDecls| then Some(columnDecls[commaIndex]) else None
    }
  }

  /** The column count is the number of declarations, and the lookup fails exactly past it. */
  lemma LookupWithinCount(decls: seq<string>, i: nat)
    ensures CsvHeader(decls).GetColumnCount() == |decls|
    ensures i < |decls| ==> CsvHeader(decls).LookupColumnType(i) == Some(decls[i])
    ensures i >= |decls| ==> CsvHeader(decls).LookupColumnType(i).None?
  {
  }
}
