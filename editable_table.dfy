// The table block of `src/components/EditableTable/index.tsx`: how a block's
// text is run (as a query-engine TABLE query or as a script), the query
// results it keeps, which cell view each cell gets, and which file a row
// belongs to.

module EditableTable {
  import opened Wrappers
  import opened Strings
  import opened JsValues
  import opened Utils

  /** The cell view `EditableTableData` renders. */
  datatype CellView =
    | LinkView
    | ArrayInputWrapper
    | DatePlaceholder       // the literal "date"
    | DateTimePlaceholder   // the literal "datetime"
    | CheckboxInput
    | NumberInput
    | StringInput

  /**
   * `EditableTableData`: a Link value gets the link view whatever the
   * property's type; otherwise the registered (or fallback) property type
   * decides.
   */
  function EditableTableData(registry: map<string, string>, propertyValue: Value, propertyName: string): (r: CellView)
    ensures propertyValue.Link? <==> r == LinkView
    ensures !propertyValue.Link? ==>
              var t := GetPropertyType(registry, propertyName);
              (t in {"multitext", "tags"} <==> r == ArrayInputWrapper)
              && (t == "date" <==> r == DatePlaceholder)
              && (t == "datetime" <==> r == DateTimePlaceholder)
              && (t == "checkbox" <==> r == CheckboxInput)
              && (t == "number" <==> r == NumberInput)
              && (t !in {"multitext", "tags", "date", "datetime", "checkbox", "number"} <==> r == StringInput)
  {
    var propertyType := GetPropertyType(registry, propertyName);
    if propertyValue.Link? then LinkView
    else if propertyType == "multitext" || propertyType == "tags" then ArrayInputWrapper
    else if propertyType == "date" then DatePlaceholder
    else if propertyType == "datetime" then DateTimePlaceholder
    else if propertyType == "checkbox" then CheckboxInput
    else if propertyType == "number" then NumberInput
    else StringInput
  }

  /** Unregistered properties, dotted ("object") or not ("inline"), get the string input. */
  lemma UnregisteredIsString(propertyValue: Value, propertyName: string)
    requires !propertyValue.Link?
    ensures EditableTableData(map[], propertyValue, propertyName) == StringInput
  {
  }

  /** The block is a TABLE query when the text before its first space is exactly "TABLE". */
  function IsTableQuery(data: string): (r: bool)
    ensures r <==> data == "TABLE" || "TABLE " <= data
  {
    FirstPieceIs(data, ' ', "TABLE");
    Split(data, " ")[0] == "TABLE"
  }

  /** "TABLE" followed by a space starts a table query. */
  lemma UpperTableIsQuery()
    ensures IsTableQuery("TABLE file.name")
  {
    assert "TABLE file.name" == "TABLE" + " " + "file.name";
    TextBeforeSpace("TABLE", "file.name");
  }

  /** The check is case-sensitive: a lower-case keyword makes the block a script. */
  lemma LowerTableIsScript()
    ensures !IsTableQuery("table file.name")
  {
    assert "table file.name" == "table" + " " + "file.name";
    TextBeforeSpace("table", "file.name");
  }

  /** A newline right after the keyword hides it: the whole text is one word. */
  lemma TableNewlineIsScript()
    ensures !IsTableQuery("TABLE\nfile.name")
  {
    var data := "TABLE\nfile.name";
    NoCharNoOccurrence(data, ' ');
    assert IndexFrom(data, " ", 0).None?;
    assert Split(data, " ") == [data];
  }

  /** The first space-separated word of `w + " " + rest` is `w`, when `w` has no space. */
  lemma TextBeforeSpace(w: string, rest: string)
    requires ' ' !in w
    ensures Split(w + " " + rest, " ")[0] == w
  {
    IndexOfJoinedChar(w, ' ', rest);
    assert (w + " " + rest)[..|w|] == w;
  }

  /** Each row's file is its first cell (`undefined` for an empty row). */
  function RowFile(row: seq<Value>): (r: Value)
    ensures |row| > 0 ==> r == row[0]
    ensures |row| == 0 ==> r == Undefined
  {
    if |row| > 0 then row[0] else Undefined
  }

  /** What the query engine answers for a TABLE query. */
  datatype DvResult = DvResult(successful: bool, value: Value)

  /** The query results a table block holds, `undefined` until a query succeeds. */
  class TableState {
    var queryResults: Value

    constructor ()
      ensures queryResults == Undefined
    {
      queryResults := Undefined;
    }

    /**
     * The two ways `doQuery` runs a block: a TABLE query keeps the engine's
     * value when it succeeded; a script keeps its result when it is truthy.
     * A script that throws (`scriptResult` None) or a falsy result changes
     * nothing.
     */
    method RunQuery(asTable: bool, scriptResult: Option<Value>, dvResult: DvResult)
      modifies this
      ensures asTable && dvResult.successful ==> queryResults == dvResult.value
      ensures asTable && !dvResult.successful ==> queryResults == old(queryResults)
      ensures !asTable && scriptResult.Some? && Truthy(scriptResult.value) ==> queryResults == scriptResult.value
      ensures !asTable && !(scriptResult.Some? && Truthy(scriptResult.value)) ==> queryResults == old(queryResults)
    {
      if !asTable {
        if scriptResult.None? {
          return;
        }
        var result := scriptResult.value;
        if !Truthy(result) {
          return;
        }
        queryResults := result;
        return;
      }
      if !dvResult.successful {
        return;
      }
      queryResults := dvResult.value;
    }

    /** `doQuery` of this block: whether to run it as a table is the case-sensitive "TABLE" check. */
    method DoQuery(data: string, scriptResult: Option<Value>, dvResult: DvResult)
      modifies this
      ensures IsTableQuery(data) ==> queryResults == (if dvResult.successful then dvResult.value else old(queryResults))
      ensures !IsTableQuery(data) ==>
                queryResults == (if scriptResult.Some? && Truthy(scriptResult.value) then scriptResult.value else old(queryResults))
    {
      RunQuery(IsTableQuery(data), scriptResult, dvResult);
    }
  }
}
