// The settings form of `src/components/PluginSettings/index.tsx`: the
// settings schema and its defaults, the backfill-then-validate flow that
// loads and saves settings, the reset confirmation, and the column-alias
// list edits.

module PluginSettings {
  import opened Wrappers
  import opened Strings
  import opened JsValues
  import opened Utils

  /** A settings object as it is stored: any keys, any values. */
  type SettingsObject = map<string, Value>

  const SCHEMA_KEYS: set<string> := {
    "autoSuggest", "showTypeIcons", "emptyValueDisplay", "queryLinksPropertyName",
    "cssClassName", "columnAliases", "verticalAlignment", "horizontalAlignment"
  }

  /** An array whose every element is an array of strings (the inner arrays may have any length). */
  predicate IsAliasList(v: Value) {
    v.Arr? && forall i :: 0 <= i < |v.items| ==> IsStringArray(v.items[i])
  }

  predicate IsStringArray(v: Value) {
    v.Arr? && forall j :: 0 <= j < |v.items| ==> v.items[j].Str?
  }

  /** What the schema accepts for each of its keys. */
  predicate FieldValid(key: string, v: Value) {
    match key
    case "autoSuggest" => v.Bool?
    case "showTypeIcons" => v.Bool?
    case "emptyValueDisplay" => v.Str?
    case "queryLinksPropertyName" => v.Str?
    case "cssClassName" => v.Str?
    case "columnAliases" => IsAliasList(v)
    case "verticalAlignment" => v in {Str("top"), Str("middle"), Str("bottom")}
    case "horizontalAlignment" => v in {Str("start"), Str("center"), Str("end")}
    case _ => true
  }

  /** `SettingsSchema`: every schema key is present with a value of its type; other keys are allowed. */
  function IsSettings(m: SettingsObject): (r: bool)
    ensures r <==>
              && "autoSuggest" in m && m["autoSuggest"].Bool?
              && "showTypeIcons" in m && m["showTypeIcons"].Bool?
              && "emptyValueDisplay" in m && m["emptyValueDisplay"].Str?
              && "queryLinksPropertyName" in m && m["queryLinksPropertyName"].Str?
              && "cssClassName" in m && m["cssClassName"].Str?
              && "columnAliases" in m && IsAliasList(m["columnAliases"])
              && "verticalAlignment" in m && m["verticalAlignment"] in {Str("top"), Str("middle"), Str("bottom")}
              && "horizontalAlignment" in m && m["horizontalAlignment"] in {Str("start"), Str("center"), Str("end")}
  {
    forall k :: k in SCHEMA_KEYS ==> k in m && FieldValid(k, m[k])
  }

  /** The data a successful parse returns: the object keeps only the schema's keys. */
  function Strip(m: SettingsObject): (r: SettingsObject)
    ensures r.Keys == m.Keys * SCHEMA_KEYS
    ensures forall k :: k in r ==> r[k] == m[k]
  {
    map k | k in m && k in SCHEMA_KEYS :: m[k]
  }

  /** `SettingsSchema.safeParse(m).data`: the stripped object when valid, `undefined` otherwise. */
  function ParsedData(m: SettingsObject): (r: Option<SettingsObject>)
    ensures r.Some? <==> IsSettings(m)
    ensures r.Some? ==> IsSettings(r.value) && r.value.Keys == SCHEMA_KEYS
  {
    if IsSettings(m) then Some(Strip(m)) else None
  }

  function AliasPair(name: string, alias: string): Value {
    Arr([Str(name), Str(alias)])
  }

  /** `defaultSettings`. */
  const DEFAULT_SETTINGS: SettingsObject := map[
    "autoSuggest" := Bool(true),
    "showTypeIcons" := Bool(true),
    "emptyValueDisplay" := Str("-"),
    "queryLinksPropertyName" := Str("dataedit-links"),
    "cssClassName" := Str(""),
    "columnAliases" := Arr([AliasPair("thisColumn", "showThisAlias")]),
    "verticalAlignment" := Str("top"),
    "horizontalAlignment" := Str("start")
  ]

  /** The defaults satisfy the schema and have exactly its keys. */
  lemma DefaultsAreSettings()
    ensures IsSettings(DEFAULT_SETTINGS)
    ensures DEFAULT_SETTINGS.Keys == SCHEMA_KEYS
  {
    var aliases := DEFAULT_SETTINGS["columnAliases"];
    assert IsStringArray(aliases.items[0]);
    assert FieldValid("columnAliases", aliases);
  }

  /**
   * Backfilling from the defaults fills every missing schema key with a
   * valid value, so the backfilled object is valid exactly when every schema
   * key the saved object already has holds a value of the right type.
   */
  lemma BackfilledValidIff(saved: SettingsObject)
    ensures IsSettings(Backfilled(saved, DEFAULT_SETTINGS)) <==>
              forall k :: k in SCHEMA_KEYS && k in saved ==> FieldValid(k, saved[k])
  {
    DefaultsAreSettings();
    var b := Backfilled(saved, DEFAULT_SETTINGS);
    if forall k :: k in SCHEMA_KEYS && k in saved ==> FieldValid(k, saved[k]) {
      forall k | k in SCHEMA_KEYS ensures k in b && FieldValid(k, b[k]) {
        assert k in DEFAULT_SETTINGS;
      }
    }
  }

  /** An empty saved object comes out of backfill and validation as exactly the defaults. */
  lemma EmptySavedGivesDefaults()
    ensures Backfilled(map[], DEFAULT_SETTINGS) == DEFAULT_SETTINGS
    ensures ParsedData(Backfilled(map[], DEFAULT_SETTINGS)) == Some(DEFAULT_SETTINGS)
  {
    DefaultsAreSettings();
    assert Backfilled(map[], DEFAULT_SETTINGS) == DEFAULT_SETTINGS;
    assert Strip(DEFAULT_SETTINGS) == DEFAULT_SETTINGS;
  }

  /** A validation issue: the path to the offending value (keys and indices) and its message. */
  datatype Issue = Issue(path: seq<Value>, message: string)

  /** An error row of the form: the path joined with ", ", and the message. */
  datatype ErrorRow = ErrorRow(path: string, message: string)

  function PathStrings(path: seq<Value>): (r: seq<string>)
    ensures |r| == |path|
    ensures forall i :: 0 <= i < |path| ==> r[i] == StringOf(path[i])
  {
    seq(|path|, i requires 0 <= i < |path| => StringOf(path[i]))
  }

  /** The rows the form records for a list of issues, one per issue, in order. */
  function ErrorRows(issues: seq<Issue>): (r: seq<ErrorRow>)
    ensures |r| == |issues|
    ensures forall i :: 0 <= i < |issues| ==>
              r[i] == ErrorRow(Join(PathStrings(issues[i].path), ", "), issues[i].message)
  {
    seq(|issues|, i requires 0 <= i < |issues| => ErrorRow(Join(PathStrings(issues[i].path), ", "), issues[i].message))
  }

  // ---------------------------------------------------------------------------
  // Column-alias list edits

  /** The X button on alias `i`: the list without entry `i`. */
  function RemoveAlias(aliases: seq<Value>, i: int): (r: seq<Value>)
    ensures 0 <= i < |aliases| ==> |r| == |aliases| - 1
    ensures !(0 <= i < |aliases|) ==> r == aliases
    ensures 0 <= i < |aliases| ==> r[..i] == aliases[..i] && r[i..] == aliases[i + 1..]
  {
    if 0 <= i < |aliases| then aliases[..i] + aliases[i + 1..] else aliases
  }

  /** "Add new alias": `["", ""]` appended. */
  function AddAlias(aliases: seq<Value>): (r: seq<Value>)
    ensures |r| == |aliases| + 1 && r[..|aliases|] == aliases && r[|aliases|] == AliasPair("", "")
  {
    aliases + [AliasPair("", "")]
  }

  datatype EditError = NoSuchAlias   // `copyAliasArr[index]` is undefined, so indexing it throws

  /**
   * `copyAliasArr[index][part] = v`, the name (`part` 0) or alias (`part` 1)
   * edit: only that slot of that entry changes.
   */
  function SetAliasPart(aliases: seq<Value>, index: int, part: nat, v: string): (r: Result<seq<Value>, EditError>)
    requires part <= 1
    ensures r.Failure? <==> !(0 <= index < |aliases| && aliases[index].Arr?)
    ensures r.Success? ==>
              |r.value| == |aliases| && r.value[index] == Arr(SetElement(aliases[index].items, part, Str(v)))
              && forall k :: 0 <= k < |aliases| && k != index ==> r.value[k] == aliases[k]
  {
    if 0 <= index < |aliases| && aliases[index].Arr? then
      Success(aliases[index := Arr(SetElement(aliases[index].items, part, Str(v)))])
    else Failure(NoSuchAlias)
  }

  /** Each alias edit on a valid list keeps it a valid list (an alias set on a one-element name only pair grows it to a pair). */
  lemma AliasEditsPreserveValidity(aliases: seq<Value>, i: int, part: nat, v: string)
    requires IsAliasList(Arr(aliases)) && part <= 1
    ensures IsAliasList(Arr(RemoveAlias(aliases, i)))
    ensures IsAliasList(Arr(AddAlias(aliases)))
    ensures SetAliasPart(aliases, i, part, v).Success? && (part == 0 || 1 <= |aliases[i].items|) ==>
              IsAliasList(Arr(SetAliasPart(aliases, i, part, v).value))
  {
    var removed := RemoveAlias(aliases, i);
    if 0 <= i < |aliases| {
      forall k | 0 <= k < |removed| ensures IsStringArray(removed[k]) {
        if k < i { assert removed[k] == aliases[k]; } else { assert removed[k] == aliases[k + 1]; }
      }
    }
    var added := AddAlias(aliases);
    forall k | 0 <= k < |added| ensures IsStringArray(added[k]) {
      if k < |aliases| { assert added[k] == aliases[k]; }
    }
  }

  /** Setting the alias of an entry that is only a name leaves a hole in it, so the list no longer validates. */
  lemma AliasOnEmptyEntryLeavesHole()
    ensures var r := SetAliasPart([Arr([])], 0, 1, "x");
            r.Success? && r.value == [Arr([Undefined, Str("x")])] && !IsAliasList(Arr(r.value))
  {
    var r := SetAliasPart([Arr([])], 0, 1, "x");
    var items := SetElement([], 1, Str("x"));
    assert items == [Undefined, Str("x")];
    assert r.value[0].items[0] == Undefined;
    assert !IsStringArray(r.value[0]);
  }

  // ---------------------------------------------------------------------------
  // The form

  /** The plugin settings form: its state, and what it last handed to the plugin to save. */
  class SettingsForm {
    var form: Option<SettingsObject>
    var errors: Option<seq<ErrorRow>>
    /** The argument of the last `plugin.updateSettings` call, if any. */
    var persisted: Option<SettingsObject>

    /** The first render: the saved settings backfilled from the defaults and parsed; `undefined` when invalid. */
    constructor (savedSettings: SettingsObject)
      ensures form == ParsedData(Backfilled(savedSettings, DEFAULT_SETTINGS))
      ensures form.Some? <==> forall k :: k in SCHEMA_KEYS && k in savedSettings ==> FieldValid(k, savedSettings[k])
      ensures errors == None && persisted == None
    {
      BackfilledValidIff(savedSettings);
      var potentialSettings := AddNewKeyValues(savedSettings, DEFAULT_SETTINGS);
      form := ParsedData(potentialSettings);
      errors := None;
      persisted := None;
    }

    /** `updateForm(key, value)`: the form with `key` set; an undefined form spreads as `{}`. */
    method UpdateForm(key: string, value: Value)
      modifies this
      ensures form.Some? && form.value == old(form).GetOr(map[])[key := value]
      ensures forall k :: k != key && old(form).Some? && k in old(form).value ==> k in form.value && form.value[k] == old(form).value[k]
      ensures errors == old(errors) && persisted == old(persisted)
    {
      form := Some(form.GetOr(map[])[key := value]);
    }

    /**
     * The effect that runs after the form changes: the form backfilled from
     * the defaults is handed to the plugin to save when it validates (with
     * any extra keys, since the unstripped copy is saved).
     */
    method FormEffect()
      modifies this
      ensures var copyForm := Backfilled(form.GetOr(map[]), DEFAULT_SETTINGS);
              persisted == (if IsSettings(copyForm) then Some(copyForm) else old(persisted))
      ensures form == old(form) && errors == old(errors)
    {
      var copyForm := AddNewKeyValues(form.GetOr(map[]), DEFAULT_SETTINGS);
      var parsed := ParsedData(copyForm);
      if parsed.Some? {
        persisted := Some(copyForm);
      }
    }

    /**
     * `onExternalSettingsChange`: the newly loaded data (`null` as None) is
     * backfilled and parsed; a valid result replaces the form, an invalid one
     * leaves the form and records one error row per issue.
     */
    method OnExternalSettingsChange(loaded: Option<SettingsObject>, issues: seq<Issue>)
      modifies this
      ensures var parsed := ParsedData(Backfilled(loaded.GetOr(map[]), DEFAULT_SETTINGS));
              if parsed.Some? then form == parsed && errors == old(errors)
              else form == old(form) && errors == Some(ErrorRows(issues))
      ensures persisted == old(persisted)
    {
      var copyForm := AddNewKeyValues(loaded.GetOr(map[]), DEFAULT_SETTINGS);
      var parsed := ParsedData(copyForm);
      if parsed.Some? {
        form := parsed;
      } else {
        errors := Some(ErrorRows(issues));
      }
    }

    /** The reset dialog's close callback: the form becomes the defaults only when the dialog was confirmed. */
    method OnResetDialogClosed(isConfirmed: bool)
      modifies this
      ensures form == (if isConfirmed then Some(DEFAULT_SETTINGS) else old(form))
      ensures errors == old(errors) && persisted == old(persisted)
    {
      if !isConfirmed {
        return;
      }
      form := Some(DEFAULT_SETTINGS);
    }
  }

  /**
   * With invalid saved settings the form starts undefined, and the effect
   * that follows the first render saves the defaults in their place.
   */
  method InvalidSavedSettingsAreReplaced() returns (form: Option<SettingsObject>, persisted: Option<SettingsObject>)
    ensures form == None
    ensures persisted == Some(DEFAULT_SETTINGS)
  {
    var saved := map["autoSuggest" := Str("yes")];
    assert !FieldValid("autoSuggest", saved["autoSuggest"]);
    var f := new SettingsForm(saved);
    form := f.form;
    EmptySavedGivesDefaults();
    f.FormEffect();
    persisted := f.persisted;
  }

  /** The confirmation dialog of the reset button. */
  class ConfirmationDialog {
    var isConfirmed: bool
    var isOpen: bool

    constructor ()
      ensures !isConfirmed && isOpen
    {
      isConfirmed := false;
      isOpen := true;
    }

    /** The cancel button closes the dialog, which reports `isConfirmed` to its close callback. */
    method Cancel() returns (reported: bool)
      modifies this
      ensures !isOpen && isConfirmed == old(isConfirmed) && reported == isConfirmed
    {
      isOpen := false;
      reported := isConfirmed;
    }

    /** The confirm button sets `isConfirmed` and closes the dialog, which reports it. */
    method Confirm() returns (reported: bool)
      modifies this
      ensures !isOpen && isConfirmed && reported
    {
      isConfirmed := true;
      isOpen := false;
      reported := isConfirmed;
    }
  }

  /** The reset flow: a fresh dialog, one of its buttons, and the form's close callback. */
  method ResetThroughDialog(f: SettingsForm, confirm: bool)
    modifies f
    ensures f.form == (if confirm then Some(DEFAULT_SETTINGS) else old(f.form))
  {
    var dialog := new ConfirmationDialog();
    var reported;
    if confirm {
      reported := dialog.Confirm();
    } else {
      reported := dialog.Cancel();
    }
    f.OnResetDialogClosed(reported);
  }
}
