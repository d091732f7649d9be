// The number cell of `src/components/Inputs/NumberInput/index.tsx`: editing
// the number in place, the -1 and +1 buttons, and the expression dialog whose
// update button is enabled only while the expression evaluates to a number.

module NumberInput {
  import opened Wrappers
  import opened JsValues
  import ArrayInput

  /** What `eval(expression)` did: threw with a message, or returned a value. */
  datatype EvalResult = Threw(message: string) | Returned(value: Value)

  /** The `calculated` state: an error flag and the number or the error message. */
  datatype Calculated = Calculated(error: bool, message: Value)

  const NOT_A_VALID_EXPRESSION := "Not a valid expression"

  /**
   * The expression effect: a thrown error, or a result that `Number` makes
   * NaN, sets the error with its message; a number clears it.
   */
  function Evaluate(result: EvalResult): (c: Calculated)
    ensures c.error <==> result.Threw? || ToNumber(result.value).None?
    ensures !c.error ==> c.message == Num(ToNumber(result.value).value)
    ensures result.Threw? ==> c.message == Str(result.message)
    ensures result.Returned? && ToNumber(result.value).None? ==> c.message == Str(NOT_A_VALID_EXPRESSION)
  {
    match result {
      case Threw(m) => Calculated(true, Str(m))
      case Returned(v) =>
        match ToNumber(v) {
          case None => Calculated(true, Str(NOT_A_VALID_EXPRESSION))
          case Some(n) => Calculated(false, Num(n))
        }
    }
  }

  /** The minus button writes `Number(value) - 1`: NaN stays NaN. */
  function MinusWrite(propertyValue: Value): (r: Value)
    ensures ToNumber(propertyValue).Some? ==> r == Num(ToNumber(propertyValue).value - 1)
    ensures ToNumber(propertyValue).None? ==> r == NaN
  {
    match ToNumber(propertyValue) {
      case Some(n) => Num(n - 1)
      case None => NaN
    }
  }

  /** The plus button writes `Number(value) + 1`. */
  function PlusWrite(propertyValue: Value): (r: Value)
    ensures ToNumber(propertyValue).Some? ==> r == Num(ToNumber(propertyValue).value + 1)
    ensures ToNumber(propertyValue).None? ==> r == NaN
  {
    match ToNumber(propertyValue) {
      case Some(n) => Num(n + 1)
      case None => NaN
    }
  }

  /** Minus undoes plus and plus undoes minus, on every value `Number` reads as a number. */
  lemma MinusPlusInverse(v: Value)
    requires ToNumber(v).Some?
    ensures MinusWrite(PlusWrite(v)) == Num(ToNumber(v).value)
    ensures PlusWrite(MinusWrite(v)) == Num(ToNumber(v).value)
  {
  }

  /** The number cell and its dialog. */
  class NumberCell {
    var isEditing: bool
    var isDialogOpen: bool
    var expression: string
    var calculated: Calculated

    /** A shown update button writes a number: an error-free result always holds one. */
    predicate Valid()
      reads this
    {
      !calculated.error ==> calculated.message.Num?
    }

    /**
     * The first render and its effect: `eval("")` returns `undefined`, which
     * `Number` makes NaN, so the update button starts disabled.
     */
    constructor ()
      ensures Valid()
      ensures !isEditing && !isDialogOpen && expression == ""
      ensures calculated == Calculated(true, Str(NOT_A_VALID_EXPRESSION))
    {
      isEditing := false;
      isDialogOpen := false;
      expression := "";
      calculated := Evaluate(Returned(Undefined));
    }

    /** The update button is disabled exactly while the calculation has an error. */
    predicate UpdateEnabled()
      reads this
    {
      !calculated.error
    }

    /** Typing an expression: a changed expression is evaluated again (`result` is what `eval` did with it). */
    method SetExpression(e: string, result: EvalResult)
      requires Valid()
      modifies this
      ensures Valid()
      ensures expression == e
      ensures e != old(expression) ==> calculated == Evaluate(result)
      ensures e == old(expression) ==> calculated == old(calculated)
      ensures isEditing == old(isEditing) && isDialogOpen == old(isDialogOpen)
    {
      if e != expression {
        expression := e;
        calculated := Evaluate(result);
      }
    }

    /** The parentheses button opens the dialog. */
    method OpenDialog()
      modifies this
      ensures isDialogOpen
      ensures isEditing == old(isEditing) && expression == old(expression) && calculated == old(calculated)
    {
      isDialogOpen := true;
    }

    /** The cancel button closes the dialog and writes nothing. */
    method Cancel()
      modifies this
      ensures !isDialogOpen
      ensures isEditing == old(isEditing) && expression == old(expression) && calculated == old(calculated)
    {
      isDialogOpen := false;
    }

    /** The update button, enabled only without an error: it closes the dialog and writes the calculated number. */
    method Update() returns (written: Value)
      requires Valid() && UpdateEnabled()
      modifies this
      ensures !isDialogOpen
      ensures written == calculated.message && written.Num?
      ensures isEditing == old(isEditing) && expression == old(expression) && calculated == old(calculated)
    {
      isDialogOpen := false;
      written := calculated.message;
    }

    /** A click on, or focus of, the number enters editing. */
    method Activate()
      modifies this
      ensures isEditing
      ensures isDialogOpen == old(isDialogOpen) && expression == old(expression) && calculated == old(calculated)
    {
      isEditing := true;
    }

    /**
     * Leaving the input writes `Number(value)`; editing ends once the awaited
     * write resolves, and goes on when it rejects (`writeFailed`).
     */
    method Blur(propertyValue: Value, writeFailed: bool) returns (written: Value)
      modifies this
      ensures written == NumberValue(ToNumber(propertyValue))
      ensures !writeFailed ==> !isEditing
      ensures writeFailed ==> isEditing == old(isEditing)
      ensures isDialogOpen == old(isDialogOpen) && expression == old(expression) && calculated == old(calculated)
    {
      written := NumberValue(ToNumber(propertyValue));
      if !writeFailed {
        isEditing := false;
      }
    }

    /** Enter in the input writes `Number(value)`; editing goes on. */
    method Enter(propertyValue: Value) returns (written: Value)
      ensures written == NumberValue(ToNumber(propertyValue))
    {
      written := NumberValue(ToNumber(propertyValue));
    }
  }

  /** `copyPrev.values[row][col] = Number(text)`: an array row gets the number at `col`; any other row (a missing one reads `undefined`) counts as a throw. */
  function TypedRow(rowValue: Value, col: nat, text: string): (r: Option<Value>)
    ensures r.Some? <==> rowValue.Arr?
    ensures r.Some? ==> r.value.Arr? && r.value.items == SetElement(rowValue.items, col, NumberValue(StringToNumber(text)))
  {
    if rowValue.Arr? then Some(Arr(SetElement(rowValue.items, col, NumberValue(StringToNumber(text))))) else None
  }

  /**
   * Typing `text` into the cell at `values[row][col]`: only that cell of the
   * results changes, to `Number(text)`; nothing is written to the note.
   */
  method OnType(results: ArrayInput.QueryRows, row: nat, col: nat, text: string) returns (changed: bool)
    modifies results
    ensures changed <==> row < |old(results.values)| && old(results.values)[row].Arr?
    ensures changed ==>
              |results.values| == |old(results.values)|
              && results.values[row] == TypedRow(old(results.values)[row], col, text).value
              && forall k :: 0 <= k < |results.values| && k != row ==> results.values[k] == old(results.values)[k]
    ensures !changed ==> results.values == old(results.values)
  {
    if row < |results.values| {
      var typed := TypedRow(results.values[row], col, text);
      if typed.Some? {
        results.values := results.values[row := typed.value];
        return true;
      }
    }
    return false;
  }

  /** Typing a printed integer and leaving the input writes that integer. */
  lemma TypeThenBlurWritesNumber(n: int)
    ensures NumberValue(StringToNumber(IntToString(n))) == Num(n)
    ensures NumberValue(ToNumber(Num(n))) == Num(n)
  {
    IntStringRoundTrip(n);
  }

  /** An expression that evaluates to a number enables the update button, which then writes that number. */
  lemma NumericResultEnablesUpdate(v: Value)
    requires ToNumber(v).Some?
    ensures !Evaluate(Returned(v)).error && Evaluate(Returned(v)).message == Num(ToNumber(v).value)
  {
  }
}
