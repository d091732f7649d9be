// The choice of cell input in `src/components/Inputs/index.tsx`: which input
// `InputSwitch` renders for a cell, given the cell's value, the property's
// declared type and the property's name.

module Inputs {
  import opened Strings
  import opened JsValues
  import opened Utils

  /** The input `InputSwitch` renders; `StringInput` carries the value it is given. */
  datatype InputKind =
    | MarkdownView
    | StringInput(shown: Value)
    | BooleanInput
    | DateInput(hasTime: bool)
    | ArrayInput
    | NumberInput
    | ObjectPlaceholder   // the literal "[Object object]"

  /** The file column: the declared type or the name is "file" in any case, or the name is "file.link". */
  function IsFileProperty(propertyType: string, propertyName: string): (r: bool)
    ensures r <==> EqualsIgnoringCase(propertyType, "file") || EqualsIgnoringCase(propertyName, "file")
                   || EqualsIgnoringCase(propertyName, "file.link")
  {
    assert ToLower("file") == "file";
    assert ToLower("file.link") == "file.link";
    LowerEqualsIff(propertyType, "file");
    LowerEqualsIff(propertyName, "file");
    LowerEqualsIff(propertyName, "file.link");
    ToLower(propertyType) == "file" || ToLower(propertyName) == "file" || ToLower(propertyName) == "file.link"
  }

  /** The input for a falsy value, chosen by the declared type alone. */
  function DeclaredKind(propertyType: string, propertyValue: Value): (r: InputKind)
    ensures propertyType in {"aliases", "text", "object"} ==> r == StringInput(propertyValue)
    ensures propertyType == "checkbox" <==> r == BooleanInput
    ensures propertyType == "date" <==> r == DateInput(false)
    ensures propertyType == "datetime" <==> r == DateInput(true)
    ensures propertyType in {"multitext", "tags"} <==> r == ArrayInput
    ensures propertyType == "number" <==> r == NumberInput
    ensures propertyType !in {"checkbox", "date", "datetime", "multitext", "tags", "number"} <==> r == StringInput(propertyValue)
  {
    match propertyType
    case "aliases" => StringInput(propertyValue)
    case "text" => StringInput(propertyValue)
    case "object" => StringInput(propertyValue)
    case "checkbox" => BooleanInput
    case "date" => DateInput(false)
    case "datetime" => DateInput(true)
    case "multitext" => ArrayInput
    case "number" => NumberInput
    case "tags" => ArrayInput
    case _ => StringInput(propertyValue)
  }

  /** The input for a truthy value, chosen by its runtime shape alone. */
  function RuntimeKind(propertyValue: Value): (r: InputKind)
    requires Truthy(propertyValue)
    ensures TypeOf(propertyValue) == "string" ==> r == StringInput(propertyValue)
    ensures TypeOf(propertyValue) == "number" <==> r == NumberInput
    ensures TypeOf(propertyValue) == "boolean" <==> r == BooleanInput
    ensures propertyValue.Arr? <==> r == ArrayInput
    ensures propertyValue.DateTime? <==> r.DateInput?
    ensures propertyValue.DateTime? ==> r.hasTime == IsDateWithTime(propertyValue)
    ensures IsLink(propertyValue) ==> r == StringInput(TryToMarkdownLink(propertyValue))
    ensures propertyValue.Obj? <==> r == ObjectPlaceholder
    ensures TypeOf(propertyValue) == "function" <==> r == MarkdownView
  {
    match TypeOf(propertyValue)
    case "string" => StringInput(propertyValue)
    case "number" => NumberInput
    case "object" =>
      if propertyValue.Arr? then ArrayInput
      else if propertyValue.DateTime? then DateInput(IsDateWithTime(propertyValue))
      else
        var potentialMarkdownLink := TryToMarkdownLink(propertyValue);
        if potentialMarkdownLink.Str? then StringInput(potentialMarkdownLink)
        else ObjectPlaceholder
    case "boolean" => BooleanInput
    case _ => MarkdownView
  }

  /** `InputSwitch`: the file column first, then the declared type for falsy values, then the value's shape. */
  function InputSwitch(propertyValue: Value, propertyType: string, propertyName: string): (r: InputKind)
    ensures IsFileProperty(propertyType, propertyName) ==> r == MarkdownView
    ensures !IsFileProperty(propertyType, propertyName) && !Truthy(propertyValue) ==> r == DeclaredKind(propertyType, propertyValue)
    ensures !IsFileProperty(propertyType, propertyName) && Truthy(propertyValue) ==> r == RuntimeKind(propertyValue)
  {
    if IsFileProperty(propertyType, propertyName) then MarkdownView
    else if !Truthy(propertyValue) then DeclaredKind(propertyType, propertyValue)
    else RuntimeKind(propertyValue)
  }

  /** However the name and type are capitalised, "File" and "FILE.LINK" columns render as markdown. */
  lemma FileColumnAnyCase(v: Value, propertyName: string)
    requires propertyName in {"File", "FILE", "file", "File.Link", "file.link", "FILE.LINK"}
    ensures InputSwitch(v, "text", propertyName) == MarkdownView
  {
    var lowered := ToLower(propertyName);
    if |propertyName| == 4 {
      assert lowered == "file";
    } else {
      assert lowered == "file.link";
    }
  }

  /** A truthy value's input does not depend on the declared type. */
  lemma TruthyIgnoresDeclaredType(v: Value, type1: string, type2: string, propertyName: string)
    requires Truthy(v)
    requires !IsFileProperty(type1, propertyName) && !IsFileProperty(type2, propertyName)
    ensures InputSwitch(v, type1, propertyName) == InputSwitch(v, type2, propertyName)
  {
  }

  /** Falsy values of any shape, `0`, `false` and `""` included, get the declared type's input. */
  lemma FalsyUsesDeclaredType(propertyType: string, propertyName: string)
    requires !IsFileProperty(propertyType, propertyName)
    requires propertyType in {"checkbox", "date", "datetime", "multitext", "tags", "number"}
    ensures InputSwitch(Num(0), propertyType, propertyName) == InputSwitch(Bool(false), propertyType, propertyName)
    ensures InputSwitch(Str(""), propertyType, propertyName) == InputSwitch(Null, propertyType, propertyName)
    ensures InputSwitch(Num(0), propertyType, propertyName) != StringInput(Num(0))
  {
  }

  /** A number typed as text still gets the number input once it is non-zero; zero, being falsy, gets the declared string input. */
  lemma ShapeOverridesType()
    ensures InputSwitch(Num(5), "text", "count") == NumberInput
    ensures InputSwitch(Num(0), "text", "count") == StringInput(Num(0))
  {
    assert !IsFileProperty("text", "count") by {
      assert ToLower("text") == "text";
      assert ToLower("count") == "count";
    }
  }

  /** A link typed as a number gets a string input with its markdown, and a date at midnight a date input without time. */
  lemma ObjectShapesOverrideType()
    ensures InputSwitch(Link("a.md", "[[a]]"), "number", "ref") == StringInput(Str("[[a]]"))
    ensures InputSwitch(DateTime(0, 0, 0, "2024-01-01"), "datetime", "due") == DateInput(false)
  {
    assert !IsFileProperty("number", "ref") by {
      assert ToLower("number") == "number";
      assert ToLower("ref") == "ref";
    }
    assert !IsFileProperty("datetime", "due") by {
      assert ToLower("datetime") == "datetime";
      assert ToLower("due") == "due";
    }
  }
}
