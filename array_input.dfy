// The list cell of `src/components/Inputs/ArrayInput/index.tsx`: the plus
// button, the X button and typing edit one cell's list and put the edited row
// back into the query results; leaving an item writes the list to the note
// with links turned into their markdown text.

module ArrayInput {
  import opened Wrappers
  import opened JsValues

  /** A TypeError: `push`, `filter` or an index assignment on a value that does not support it. */
  datatype ListError = NotAList

  /** The cell `row[cellIndex]`, `undefined` past the end of the row. */
  function CellAt(row: seq<Value>, cellIndex: nat): (r: Value)
    ensures cellIndex < |row| ==> r == row[cellIndex]
    ensures cellIndex >= |row| ==> r == Undefined
  {
    if cellIndex < |row| then row[cellIndex] else Undefined
  }

  /** The list a cell holds, an absent (`null` or `undefined`) list counting as empty. */
  function ListOf(cell: Value): seq<Value> {
    if cell.Arr? then cell.items else []
  }

  /**
   * The plus button: `(toPlainArray(cell) ?? []).push("")`. An array or an
   * absent list gains one empty string at its end; any other value has no
   * `push` and throws.
   */
  function Appended(cell: Value): (r: Result<seq<Value>, ListError>)
    ensures r.Success? <==> cell.Arr? || cell.Undefined? || cell.Null?
    ensures r.Success? ==> |r.value| == |ListOf(cell)| + 1
                           && r.value[..|ListOf(cell)|] == ListOf(cell)
                           && r.value[|ListOf(cell)|] == Str("")
  {
    if cell.Arr? || cell.Undefined? || cell.Null? then Success(ListOf(cell) + [Str("")])
    else Failure(NotAList)
  }

  /**
   * `items.filter((_, index) => index !== drop)` over the part of a list that
   * starts at index `from`: every element whose index is not `drop`, in order.
   */
  function KeepOthers(items: seq<Value>, drop: nat, from: nat): (r: seq<Value>)
    ensures from <= drop < from + |items| ==> r == items[..drop - from] + items[drop - from + 1..]
    ensures !(from <= drop < from + |items|) ==> r == items
    decreases |items|
  {
    if |items| == 0 then []
    else
      var rest := KeepOthers(items[1..], drop, from + 1);
      if from == drop then rest
      else
        assert from < drop < from + |items| ==>
                 items[1..][..drop - from - 1] == items[1..drop - from]
                 && items[1..][drop - from..] == items[drop - from + 1..];
        assert items == [items[0]] + items[1..];
        [items[0]] + rest
  }

  /**
   * The X button: `toPlainArray(cell).filter(...)`. On an array, item
   * `itemIndex` is removed and the others keep their order; any other value
   * has no `filter` and throws.
   */
  function Removed(cell: Value, itemIndex: nat): (r: Result<seq<Value>, ListError>)
    ensures r.Success? <==> cell.Arr?
    ensures cell.Arr? && itemIndex < |cell.items| ==>
              r.value == cell.items[..itemIndex] + cell.items[itemIndex + 1..]
    ensures cell.Arr? && itemIndex >= |cell.items| ==> r.value == cell.items
  {
    if cell.Arr? then Success(KeepOthers(cell.items, itemIndex, 0)) else Failure(NotAList)
  }

  /**
   * Typing: `toPlainArray(cell)[itemIndex] = text`. An array gets the text at
   * that index (growing with holes past its end), a plain object gains the
   * key; a primitive, `null` or `undefined` throws (module code is strict). The
   * other objects (dates, links, functions) gain a property this model has no
   * place for and are kept as they are.
   */
  function Typed(cell: Value, itemIndex: nat, text: string): (r: Result<Value, ListError>)
    ensures r.Failure? <==> cell.Undefined? || cell.Null? || cell.Bool? || cell.Num? || cell.NaN? || cell.Str?
    ensures cell.Arr? ==> r.value.Arr?
                          && |r.value.items| == (if itemIndex < |cell.items| then |cell.items| else itemIndex + 1)
                          && r.value.items[itemIndex] == Str(text)
                          && forall k :: 0 <= k < |cell.items| && k != itemIndex ==> r.value.items[k] == cell.items[k]
    ensures cell.Obj? ==> r == Success(Obj(cell.fields[NatToString(itemIndex) := Str(text)]))
  {
    match cell {
      case Arr(items) => Success(Arr(SetElement(items, itemIndex, Str(text))))
      case Obj(fields) => Success(Obj(fields[NatToString(itemIndex) := Str(text)]))
      case DateTime(_, _, _, _) => Success(cell)
      case Link(_, _) => Success(cell)
      case Func => Success(cell)
      case _ => Failure(NotAList)
    }
  }

  /**
   * `updateProperty(newItemValue)`: the cell's list with item `itemIndex`
   * replaced by the new value (the current item when none is given), every
   * link turned into its markdown text.
   */
  function UpdatedList(items: seq<Value>, itemIndex: nat, newItem: Option<string>): (r: seq<Value>)
    requires itemIndex < |items|
    ensures |r| == |items|
    ensures r[itemIndex] == if newItem.Some? then Str(newItem.value) else TryToMarkdownLink(items[itemIndex])
    ensures forall k :: 0 <= k < |items| && k != itemIndex ==> r[k] == TryToMarkdownLink(items[k])
    ensures forall k :: 0 <= k < |r| ==> !IsLink(r[k])
  {
    var pre := items[itemIndex := if newItem.Some? then Str(newItem.value) else items[itemIndex]];
    seq(|pre|, k requires 0 <= k < |pre| => TryToMarkdownLink(pre[k]))
  }

  /** The rows of the query results (`queryResults.values`). */
  class QueryRows {
    var values: seq<Value>

    constructor (values: seq<Value>)
      ensures this.values == values
    {
      this.values := values;
    }

    /** `copyPrev.values[rowIndex] = row`: only that row changes. */
    method ReplaceRow(rowIndex: nat, row: seq<Value>)
      modifies this
      ensures values == SetElement(old(values), rowIndex, Arr(row))
      ensures values[rowIndex] == Arr(row)
      ensures forall k :: 0 <= k < |old(values)| && k != rowIndex ==> values[k] == old(values)[k]
    {
      values := SetElement(values, rowIndex, Arr(row));
    }
  }

  /**
   * The plus button of the cell at `row[cellIndex]`, the row being
   * `rowIndex` of the results: the new list goes into a copy of the row, the
   * row into the results, and the list is what is written to the note. A
   * throw changes nothing.
   */
  method OnPlus(results: QueryRows, row: seq<Value>, rowIndex: nat, cellIndex: nat) returns (written: Result<seq<Value>, ListError>)
    modifies results
    ensures written == Appended(CellAt(row, cellIndex))
    ensures written.Success? ==>
              results.values == SetElement(old(results.values), rowIndex, Arr(SetElement(row, cellIndex, Arr(written.value))))
    ensures written.Failure? ==> results.values == old(results.values)
  {
    written := Appended(CellAt(row, cellIndex));
    if written.Success? {
      var copyValues := SetElement(row, cellIndex, Arr(written.value));
      results.ReplaceRow(rowIndex, copyValues);
    }
  }

  /** The X button of item `itemIndex` of the cell at `row[cellIndex]`. */
  method OnRemove(results: QueryRows, row: seq<Value>, rowIndex: nat, cellIndex: nat, itemIndex: nat)
    returns (written: Result<seq<Value>, ListError>)
    modifies results
    ensures written == Removed(CellAt(row, cellIndex), itemIndex)
    ensures written.Success? ==>
              results.values == SetElement(old(results.values), rowIndex, Arr(SetElement(row, cellIndex, Arr(written.value))))
    ensures written.Failure? ==> results.values == old(results.values)
  {
    written := Removed(CellAt(row, cellIndex), itemIndex);
    if written.Success? {
      var copyValues := SetElement(row, cellIndex, Arr(written.value));
      results.ReplaceRow(rowIndex, copyValues);
    }
  }

  /** Typing `text` into item `itemIndex`: only the results change; nothing is written to the note. */
  method OnType(results: QueryRows, row: seq<Value>, rowIndex: nat, cellIndex: nat, itemIndex: nat, text: string)
    returns (cell: Result<Value, ListError>)
    modifies results
    ensures cell == Typed(CellAt(row, cellIndex), itemIndex, text)
    ensures cell.Success? ==>
              results.values == SetElement(old(results.values), rowIndex, Arr(SetElement(row, cellIndex, cell.value)))
    ensures cell.Failure? ==> results.values == old(results.values)
  {
    cell := Typed(CellAt(row, cellIndex), itemIndex, text);
    if cell.Success? {
      var copyValues := SetElement(row, cellIndex, cell.value);
      results.ReplaceRow(rowIndex, copyValues);
    }
  }

  /** One item of the list, shown as text until it is clicked or focused, then as an input. */
  class ArrayItem {
    var isEditing: bool

    constructor ()
      ensures !isEditing
    {
      isEditing := false;
    }

    /** A click on, or focus of, the item's text. */
    method Activate()
      modifies this
      ensures isEditing
    {
      isEditing := true;
    }

    /**
     * Leaving the input: the list is written (links as markdown), and editing
     * ends once the awaited write resolves; when it rejects (`writeFailed`)
     * the item stays as it was.
     */
    method Blur(items: seq<Value>, itemIndex: nat, writeFailed: bool) returns (written: seq<Value>)
      requires itemIndex < |items|
      modifies this
      ensures written == UpdatedList(items, itemIndex, None)
      ensures !writeFailed ==> !isEditing
      ensures writeFailed ==> isEditing == old(isEditing)
    {
      written := UpdatedList(items, itemIndex, None);
      if !writeFailed {
        isEditing := false;
      }
    }

    /** Picking suggestion `v`: the list is written with `v` at this item; editing goes on. */
    method Suggested(items: seq<Value>, itemIndex: nat, v: string) returns (written: seq<Value>)
      requires itemIndex < |items|
      modifies this
      ensures written == UpdatedList(items, itemIndex, Some(v))
      ensures isEditing == old(isEditing)
    {
      written := UpdatedList(items, itemIndex, Some(v));
    }
  }

  /** The plus button followed by the X button of the new item gives back the original list. */
  lemma PlusThenRemoveRestores(cell: Value)
    requires Appended(cell).Success?
    ensures Removed(Arr(Appended(cell).value), |ListOf(cell)|) == Success(ListOf(cell))
  {
    var list := Appended(cell).value;
    assert list[..|ListOf(cell)|] == ListOf(cell);
    assert list[|ListOf(cell)| + 1..] == [];
    assert list[..|ListOf(cell)|] + list[|ListOf(cell)| + 1..] == ListOf(cell);
  }

  /** Typing into item `i` and leaving it writes the typed text there and every other item as it was, links as markdown. */
  lemma TypeThenBlurWrites(items: seq<Value>, i: nat, text: string)
    requires i < |items|
    ensures var typed := Typed(Arr(items), i, text);
            typed.Success? && typed.value.Arr?
            && var written := UpdatedList(typed.value.items, i, None);
               |written| == |items| && written[i] == Str(text)
               && forall k :: 0 <= k < |items| && k != i ==> written[k] == TryToMarkdownLink(items[k])
  {
    var typed := Typed(Arr(items), i, text);
    assert TryToMarkdownLink(Str(text)) == Str(text);
    assert |typed.value.items| == |items|;
  }
}
