// The text cell of `src/components/Inputs/StringInput/index.tsx`: a rendered
// view that a click turns into an input (unless the table is locked), with
// suggestions filtered by the typed query, and a commit on Enter or blur.

module StringInput {
  import opened Wrappers
  import opened Strings

  /** The values of `values` that include `q`, in their order. */
  function FilterContaining(values: seq<string>, q: string): (r: seq<string>)
    ensures |r| <= |values|
    ensures forall x :: x in r <==> x in values && Contains(x, q)
    decreases |values|
  {
    if |values| == 0 then []
    else
      var rest := FilterContaining(values[1..], q);
      assert forall x :: x in values <==> x == values[0] || x in values[1..];
      if Contains(values[0], q) then [values[0]] + rest else rest
  }

  /**
   * `getSuggestions(q)`: nothing (`undefined`) when the property has no
   * known values; otherwise the known values that include the query.
   */
  function GetSuggestions(known: Option<seq<string>>, q: string): (r: Option<seq<string>>)
    ensures r.None? <==> known.None? || |known.value| == 0
    ensures r.Some? ==> (forall x :: x in r.value <==> x in known.value && Contains(x, q))
    ensures r.Some? ==> r.value == FilterContaining(known.value, q)
  {
    if known.None? || |known.value| == 0 then None
    else Some(FilterContaining(known.value, q))
  }

  /** Filtering keeps the order: filtering two lists one after the other is filtering their concatenation. */
  lemma {:induction false} FilterConcat(a: seq<string>, b: seq<string>, q: string)
    ensures FilterContaining(a + b, q) == FilterContaining(a, q) + FilterContaining(b, q)
    decreases |a|
  {
    if |a| == 0 {
      assert a + b == b;
    } else {
      assert (a + b)[0] == a[0];
      assert (a + b)[1..] == a[1..] + b;
      FilterConcat(a[1..], b, q);
    }
  }

  /** Every string includes the empty query, so before anything is typed every known value is suggested. */
  lemma {:induction false} EmptyQueryKeepsAll(values: seq<string>)
    ensures FilterContaining(values, "") == values
    decreases |values|
  {
    if |values| > 0 {
      assert OccursAt(values[0], "", 0);
      EmptyQueryKeepsAll(values[1..]);
    }
  }

  /** Filtering what was filtered by the same query changes nothing. */
  lemma {:induction false} FilterIdempotent(values: seq<string>, q: string)
    ensures FilterContaining(FilterContaining(values, q), q) == FilterContaining(values, q)
    decreases |values|
  {
    if |values| > 0 {
      var rest := FilterContaining(values[1..], q);
      FilterIdempotent(values[1..], q);
      if Contains(values[0], q) {
        assert ([values[0]] + rest)[1..] == rest;
      }
    }
  }

  class StringCell {
    var isEditing: bool
    var isSuggestShown: bool
    var selectedSuggestion: Option<string>
    var query: string

    /** The first render: the rendered view, the query being the cell's value. */
    constructor (propertyValue: string)
      ensures !isEditing && !isSuggestShown && selectedSuggestion == None && query == propertyValue
    {
      isEditing := false;
      isSuggestShown := false;
      selectedSuggestion := None;
      query := propertyValue;
    }

    /** The input is shown only while editing and not locked. */
    predicate ShowsInput(isLocked: bool)
      reads this
    {
      isEditing && !isLocked
    }

    /** A click on the rendered view: it starts editing with suggestions shown, unless locked, when it does nothing. */
    method Click(isLocked: bool)
      requires !ShowsInput(isLocked)
      modifies this
      ensures isLocked ==> isEditing == old(isEditing) && isSuggestShown == old(isSuggestShown)
      ensures !isLocked ==> isEditing && isSuggestShown && ShowsInput(isLocked)
      ensures isLocked ==> !ShowsInput(isLocked)
      ensures selectedSuggestion == old(selectedSuggestion) && query == old(query)
    {
      if !isLocked {
        isEditing := true;
        isSuggestShown := true;
      }
    }

    /**
     * `onBlur(value)`: the selected suggestion, when there is one, is written
     * instead of the typed value. Editing ends only once the awaited write has
     * resolved; when it rejects (`writeFailed`) the cell stays as it was.
     */
    method Commit(value: string, writeFailed: bool) returns (written: string)
      modifies this
      ensures written == selectedSuggestion.GetOr(value)
      ensures selectedSuggestion.Some? ==> written == selectedSuggestion.value
      ensures !writeFailed ==> !isEditing && !isSuggestShown
      ensures writeFailed ==> isEditing == old(isEditing) && isSuggestShown == old(isSuggestShown)
      ensures selectedSuggestion == old(selectedSuggestion) && query == old(query)
    {
      written := selectedSuggestion.GetOr(value);
      if !writeFailed {
        isEditing := false;
        isSuggestShown := false;
      }
    }

    /** The input losing focus: `onBlur(selectedSuggestion ?? value)`, which writes the same as a commit of `value`. */
    method Blur(value: string, writeFailed: bool) returns (written: string)
      modifies this
      ensures written == selectedSuggestion.GetOr(value)
      ensures !writeFailed ==> !isEditing && !isSuggestShown
      ensures writeFailed ==> isEditing == old(isEditing) && isSuggestShown == old(isSuggestShown)
      ensures selectedSuggestion == old(selectedSuggestion) && query == old(query)
    {
      written := Commit(selectedSuggestion.GetOr(value), writeFailed);
    }

    /** Enter commits (`writeFailed`: its awaited write rejects); Escape only hides the suggestions; other keys do nothing. */
    method KeyDown(key: string, value: string, writeFailed: bool) returns (written: Option<string>)
      modifies this
      ensures key == "Enter" ==> written == Some(old(selectedSuggestion).GetOr(value))
      ensures key == "Enter" && !writeFailed ==> !isEditing && !isSuggestShown
      ensures key == "Enter" && writeFailed ==> isEditing == old(isEditing) && isSuggestShown == old(isSuggestShown)
      ensures key == "Escape" ==> written == None && !isSuggestShown && isEditing == old(isEditing)
      ensures key != "Enter" && key != "Escape" ==>
                written == None && isEditing == old(isEditing) && isSuggestShown == old(isSuggestShown)
      ensures selectedSuggestion == old(selectedSuggestion) && query == old(query)
    {
      written := None;
      if key == "Escape" {
        isSuggestShown := false;
      }
      if key == "Enter" {
        var w := Commit(value, writeFailed);
        written := Some(w);
      }
    }

    /** Typing changes the query the suggestions are filtered by. */
    method Type(text: string)
      modifies this
      ensures query == text
      ensures isEditing == old(isEditing) && isSuggestShown == old(isSuggestShown) && selectedSuggestion == old(selectedSuggestion)
    {
      query := text;
    }

    /** `onSelect(text)` from the suggester: the selection, `undefined` included, becomes the selected suggestion. */
    method Select(text: Option<string>)
      modifies this
      ensures selectedSuggestion == text
      ensures isEditing == old(isEditing) && isSuggestShown == old(isSuggestShown) && query == old(query)
    {
      selectedSuggestion := text;
    }
  }
}
