// The earlier table block of `src/components/old/EditableTable/index.tsx`:
// the block text split into a query and a settings section, the block's
// settings resolved against the plugin settings, the case-insensitive TABLE
// check, the column header labels and aliases, the row's file column, the
// cell view each property gets, and the list of links written back to the
// note.

module OldEditableTable {
  import opened Wrappers
  import opened Strings
  import opened JsValues
  import opened Utils
  import opened PluginSettings
  import EditableTable

  // ---------------------------------------------------------------------------
  // The block text

  const CONFIG_SEPARATOR: string := "\n---\n"

  /**
   * The block split at a line holding only `---`: the query is the text
   * before it, the settings section the text after it up to any further
   * separator, and `undefined` when there is no separator.
   */
  function SplitBlock(data: string): (r: (string, Option<string>))
    ensures var parts := Split(data, CONFIG_SEPARATOR);
            r.0 == parts[0] && (r.1.Some? <==> |parts| >= 2) && (r.1.Some? ==> r.1.value == parts[1])
    ensures !Contains(r.0, CONFIG_SEPARATOR)
  {
    var parts := Split(data, CONFIG_SEPARATOR);
    (parts[0], if |parts| >= 2 then Some(parts[1]) else None)
  }

  /** A block written as query, separator, settings splits back into the two. */
  lemma SplitBlockOfJoined(query: string, config: string)
    requires forall j: nat :: j < |query| ==> !OccursAt(query + CONFIG_SEPARATOR + config, CONFIG_SEPARATOR, j)
    requires !Contains(config, CONFIG_SEPARATOR)
    ensures SplitBlock(query + CONFIG_SEPARATOR + config) == (query, Some(config))
  {
    var data := query + CONFIG_SEPARATOR + config;
    assert OccursAt(data, CONFIG_SEPARATOR, |query|) by {
      assert data[|query|..|query| + |CONFIG_SEPARATOR|] == CONFIG_SEPARATOR;
    }
    IndexFromFirst(data, CONFIG_SEPARATOR, 0, |query|);
    assert data[..|query|] == query;
    assert data[|query| + |CONFIG_SEPARATOR|..] == config;
    NotContainedNotFound(config, CONFIG_SEPARATOR);
    assert Split(config, CONFIG_SEPARATOR) == [config];
    assert Split(data, CONFIG_SEPARATOR) == [query] + Split(config, CONFIG_SEPARATOR);
  }

  /** A block without a separator is all query and has no settings section. */
  lemma SplitBlockWithoutSeparator(data: string)
    requires !Contains(data, CONFIG_SEPARATOR)
    ensures SplitBlock(data) == (data, None)
  {
    NotContainedNotFound(data, CONFIG_SEPARATOR);
  }

  // ---------------------------------------------------------------------------
  // The block's settings

  /**
   * The object the parsed settings section contributes: a mapping as it is;
   * a section that fails to parse becomes `{}`, and so does a parse result
   * that spreads to no keys.
   */
  function ConfigObject(parsedYaml: Option<Value>): (r: map<string, Value>)
    ensures parsedYaml.Some? && parsedYaml.value.Obj? ==> r == parsedYaml.value.fields
    ensures !(parsedYaml.Some? && parsedYaml.value.Obj?) ==> r == map[]
  {
    if parsedYaml.Some? && parsedYaml.value.Obj? then parsedYaml.value.fields else map[]
  }

  /**
   * The block's settings: the section backfilled from the plugin settings,
   * then validated; the stripped result when valid, the plugin settings
   * themselves otherwise.
   */
  function ParsedConfig(parsedYaml: Option<Value>, pluginSettings: SettingsObject): (r: SettingsObject)
    ensures var withSettings := Backfilled(ConfigObject(parsedYaml), pluginSettings);
            IsSettings(withSettings) ==> r == Strip(withSettings)
    ensures !IsSettings(Backfilled(ConfigObject(parsedYaml), pluginSettings)) ==> r == pluginSettings
  {
    var configWithSettings := Backfilled(ConfigObject(parsedYaml), pluginSettings);
    match ParsedData(configWithSettings)
    case Some(data) => data
    case None => pluginSettings
  }

  /**
   * When the plugin settings are valid so is the block's result, and each
   * schema key comes from the block's section if it sets it validly, else
   * from the plugin settings; a single invalid key in the section discards
   * the whole section.
   */
  lemma ParsedConfigOverrides(parsedYaml: Option<Value>, pluginSettings: SettingsObject)
    requires IsSettings(pluginSettings)
    ensures IsSettings(ParsedConfig(parsedYaml, pluginSettings))
    ensures var config := ConfigObject(parsedYaml);
            (forall k :: k in SCHEMA_KEYS && k in config ==> FieldValid(k, config[k])) ==>
              forall k :: k in SCHEMA_KEYS ==>
                ParsedConfig(parsedYaml, pluginSettings)[k] == (if k in config then config[k] else pluginSettings[k])
    ensures var config := ConfigObject(parsedYaml);
            (exists k :: k in SCHEMA_KEYS && k in config && !FieldValid(k, config[k])) ==>
              ParsedConfig(parsedYaml, pluginSettings) == pluginSettings
  {
    var config := ConfigObject(parsedYaml);
    var withSettings := Backfilled(config, pluginSettings);
    if forall k :: k in SCHEMA_KEYS && k in config ==> FieldValid(k, config[k]) {
      assert IsSettings(withSettings) by {
        forall k | k in SCHEMA_KEYS ensures k in withSettings && FieldValid(k, withSettings[k]) {
          assert k in pluginSettings;
        }
      }
    }
    if exists k :: k in SCHEMA_KEYS && k in config && !FieldValid(k, config[k]) {
      var k :| k in SCHEMA_KEYS && k in config && !FieldValid(k, config[k]);
      assert withSettings[k] == config[k];
    }
  }

  /** A section that fails to parse leaves the plugin settings, keeping only the schema's keys. */
  lemma UnparsableConfigUsesPluginSettings(pluginSettings: SettingsObject)
    requires IsSettings(pluginSettings)
    ensures ParsedConfig(None, pluginSettings) == Strip(pluginSettings)
  {
    assert Backfilled(ConfigObject(None), pluginSettings) == pluginSettings;
  }

  // ---------------------------------------------------------------------------
  // The query

  /** The block is a TABLE query when the text before its first space, lower-cased, is "table". */
  function IsTableQuery(query: string): (r: bool)
    ensures r <==> |query| >= 5 && EqualsIgnoringCase(query[..5], "table") && (|query| == 5 || query[5] == ' ')
  {
    TableWordFacts();
    FirstWordIgnoringCase(query, "table");
    ToLower(Split(query, " ")[0]) == "table"
  }

  lemma TableWordFacts()
    ensures ToLower("table") == "table" && ' ' !in "table"
  {
  }

  /** Unlike the newer table block, the check ignores case. */
  lemma TableQueryIgnoresCase(query: string)
    requires query == "Table file.name"
    ensures IsTableQuery(query)
    ensures !EditableTable.IsTableQuery(query)
  {
    TableFirstWord(query);
    assert ToLower("Table") == "table";
  }

  /** The first word of "Table file.name" is "Table". */
  lemma TableFirstWord(query: string)
    requires query == "Table file.name"
    ensures Split(query, " ")[0] == "Table"
  {
    assert query == "Table" + " " + "file.name";
    EditableTable.TextBeforeSpace("Table", "file.name");
  }

  /** `doQuery` of this block: the query part, run as a table by the case-insensitive check. */
  method DoQuery(state: EditableTable.TableState, query: string, scriptResult: Option<Value>, dvResult: EditableTable.DvResult)
    modifies state
    ensures IsTableQuery(query) ==>
              state.queryResults == (if dvResult.successful then dvResult.value else old(state.queryResults))
    ensures !IsTableQuery(query) ==>
              state.queryResults == (if scriptResult.Some? && Truthy(scriptResult.value) then scriptResult.value else old(state.queryResults))
  {
    state.RunQuery(IsTableQuery(query), scriptResult, dvResult);
  }

  // ---------------------------------------------------------------------------
  // Cells and headers

  /** The cell view `EditableTableData` renders. */
  datatype CellView =
    | FileInput
    | ArrayInputWrapper
    | DateTimeInput(isTime: bool)
    | CheckboxInput
    | NumberInput
    | StringInput

  /**
   * `EditableTableData`: a property named "file" in any case, or exactly
   * "file.link", gets the file input; otherwise the property type decides.
   */
  function EditableTableData(registry: map<string, string>, propertyName: string): (r: CellView)
    ensures ToLower(propertyName) == "file" || propertyName == "file.link" <==> r == FileInput
    ensures r != FileInput ==>
              var t := GetPropertyType(registry, propertyName);
              (t in {"multitext", "tags"} <==> r == ArrayInputWrapper)
              && (t == "date" <==> r == DateTimeInput(false))
              && (t == "datetime" <==> r == DateTimeInput(true))
              && (t == "checkbox" <==> r == CheckboxInput)
              && (t == "number" <==> r == NumberInput)
              && (t !in {"multitext", "tags", "date", "datetime", "checkbox", "number"} <==> r == StringInput)
  {
    var propertyType := GetPropertyType(registry, propertyName);
    if ToLower(propertyName) == "file" || propertyName == "file.link" then FileInput
    else if propertyType == "multitext" || propertyType == "tags" then ArrayInputWrapper
    else if propertyType == "date" then DateTimeInput(false)
    else if propertyType == "datetime" then DateTimeInput(true)
    else if propertyType == "checkbox" then CheckboxInput
    else if propertyType == "number" then NumberInput
    else StringInput
  }

  /** The file check comes before the type: even a "file" registered as a number gets the file input. */
  lemma FileBeforeType()
    ensures EditableTableData(map["File" := "number"], "File") == FileInput
  {
    assert ToLower("File") == "file";
  }

  /** The index of the first alias entry whose first element is `name`. */
  function FindAlias(aliases: seq<seq<string>>, name: string, i: nat): (r: Option<nat>)
    requires i <= |aliases|
    ensures r.Some? ==> i <= r.value < |aliases| && |aliases[r.value]| >= 1 && aliases[r.value][0] == name
    ensures r.Some? ==> forall k :: i <= k < r.value ==> |aliases[k]| == 0 || aliases[k][0] != name
    ensures r.None? ==> forall k :: i <= k < |aliases| ==> |aliases[k]| == 0 || aliases[k][0] != name
    decreases |aliases| - i
  {
    if i == |aliases| then None
    else if |aliases[i]| >= 1 && aliases[i][0] == name then Some(i)
    else FindAlias(aliases, name, i + 1)
  }

  /** `getAlias`: the second element of the first entry for the name; `undefined` without one. */
  function GetAlias(aliases: seq<seq<string>>, name: string): (r: Option<string>)
    ensures var found := FindAlias(aliases, name, 0);
            r.Some? <==> found.Some? && |aliases[found.value]| >= 2
    ensures r.Some? ==> r.value == aliases[FindAlias(aliases, name, 0).value][1]
  {
    match FindAlias(aliases, name, 0)
    case None => None
    case Some(k) => if |aliases[k]| >= 2 then Some(aliases[k][1]) else None
  }

  /** The column header: the alias if there is one (an empty alias included), else the name. */
  function HeaderLabel(aliases: seq<seq<string>>, header: string): (r: string)
    ensures GetAlias(aliases, header).Some? ==> r == GetAlias(aliases, header).value
    ensures GetAlias(aliases, header).None? ==> r == header
  {
    GetAlias(aliases, header).GetOr(header)
  }

  /** With two entries for one name the first wins, and an entry that is only a name hides later aliases. */
  lemma AliasFirstEntryWins()
    ensures HeaderLabel([["status", "State"], ["status", "Other"]], "status") == "State"
    ensures HeaderLabel([["status"], ["status", "Other"]], "status") == "status"
    ensures HeaderLabel([["due", ""]], "due") == ""
    ensures HeaderLabel([], "due") == "due"
  {
    var a1 := [["status", "State"], ["status", "Other"]];
    assert FindAlias(a1, "status", 0) == Some(0);
    var a2 := [["status"], ["status", "Other"]];
    assert FindAlias(a2, "status", 0) == Some(0);
    var a3 := [["due", ""]];
    assert FindAlias(a3, "due", 0) == Some(0);
  }

  /** The index `findIndex` gives: the first header exactly "File" or "file.link", or -1. */
  function FileColumnIndex(headers: seq<string>): (r: int)
    ensures -1 <= r < |headers|
    ensures r >= 0 ==> headers[r] in {"File", "file.link"} && forall k :: 0 <= k < r ==> headers[k] !in {"File", "file.link"}
    ensures r == -1 <==> forall k :: 0 <= k < |headers| ==> headers[k] !in {"File", "file.link"}
    decreases |headers|
  {
    if |headers| == 0 then -1
    else if headers[0] == "File" || headers[0] == "file.link" then 0
    else
      var rest := FileColumnIndex(headers[1..]);
      if rest == -1 then -1 else rest + 1
  }

  /** A row's file: its cell in the file column; `row[-1]` and cells past the row's end are `undefined`. */
  function RowFile(headers: seq<string>, row: seq<Value>): (r: Value)
    ensures var i := FileColumnIndex(headers);
            r == (if 0 <= i < |row| then row[i] else Undefined)
  {
    var i := FileColumnIndex(headers);
    if 0 <= i < |row| then row[i] else Undefined
  }

  // ---------------------------------------------------------------------------
  // The links property

  /** `flat(depth)`: arrays among the elements are spliced in, down to `depth` levels. */
  function Flat(values: seq<Value>, depth: nat): (r: seq<Value>)
    ensures depth == 0 ==> r == values
    decreases depth, |values|
  {
    if |values| == 0 then []
    else
      var head := values[0];
      var front := if head.Arr? && depth > 0 then Flat(head.items, depth - 1) else [head];
      front + Flat(values[1..], depth)
  }

  /** Cells that are links, as markdown text, in order. */
  function MarkdownLinks(cells: seq<Value>): (r: seq<string>)
    ensures |r| <= |cells|
    ensures forall x :: x in r <==> exists k :: 0 <= k < |cells| && IsLink(cells[k]) && cells[k].markdown == x
  {
    if |cells| == 0 then []
    else
      var rest := MarkdownLinks(cells[1..]);
      assert forall k :: 1 <= k < |cells| ==> cells[k] == cells[1..][k - 1];
      if IsLink(cells[0]) then [cells[0].markdown] + rest else rest
  }

  predicate NoDuplicates(s: seq<string>) {
    forall i, j :: 0 <= i < j < |s| ==> s[i] != s[j]
  }

  /** The position of the first occurrence of `x`. */
  function FirstIndex(s: seq<string>, x: string): (r: nat)
    requires x in s
    ensures r < |s| && s[r] == x && forall k :: 0 <= k < r ==> s[k] != x
  {
    if s[0] == x then 0 else 1 + FirstIndex(s[1..], x)
  }

  /** The elements of `s` not in `seen`, each once, in the order of their first occurrence (what a `Set` built from a list iterates). */
  function DedupFrom(s: seq<string>, seen: set<string>): (r: seq<string>)
    ensures forall x :: x in r <==> x in s && x !in seen
    ensures NoDuplicates(r)
    decreases |s|
  {
    if |s| == 0 then []
    else if s[0] in seen then DedupFrom(s[1..], seen)
    else [s[0]] + DedupFrom(s[1..], seen + {s[0]})
  }

  function Dedup(s: seq<string>): seq<string> {
    DedupFrom(s, {})
  }

  lemma FirstIndexCons(a: string, t: seq<string>, x: string)
    requires x != a && x in t
    ensures FirstIndex([a] + t, x) == 1 + FirstIndex(t, x)
  {
    assert ([a] + t)[1..] == t;
  }

  /** Every element of `r` occurs in `s`, and `r` lists them in the order of their first occurrence in `s`. */
  predicate InFirstOrder(s: seq<string>, r: seq<string>) {
    (forall x :: x in r ==> x in s)
    && forall i, j :: 0 <= i < j < |r| ==> FirstIndex(s, r[i]) < FirstIndex(s, r[j])
  }

  /** Prepending an element to `t` shifts every first occurrence in it by one, keeping their order. */
  lemma ShiftOrder(a: string, t: seq<string>, r: seq<string>)
    requires a !in r && InFirstOrder(t, r)
    ensures InFirstOrder([a] + t, r)
  {
    forall i, j | 0 <= i < j < |r| ensures FirstIndex([a] + t, r[i]) < FirstIndex([a] + t, r[j]) {
      assert r[i] in r && r[j] in r;
      FirstIndexCons(a, t, r[i]);
      FirstIndexCons(a, t, r[j]);
    }
  }

  /** The head of `[a] + t` occurs first, so it may lead an ordered list of later elements. */
  lemma ConsOrder(a: string, t: seq<string>, rest: seq<string>)
    requires a !in rest && InFirstOrder([a] + t, rest)
    ensures InFirstOrder([a] + t, [a] + rest)
  {
    var r := [a] + rest;
    forall i, j | 0 <= i < j < |r| ensures FirstIndex([a] + t, r[i]) < FirstIndex([a] + t, r[j]) {
      assert r[j] == rest[j - 1] && r[j] in rest;
      if i > 0 {
        assert r[i] == rest[i - 1];
      }
    }
  }

  /** The kept elements appear in the order in which they first occur. */
  lemma {:induction false} DedupFromOrder(s: seq<string>, seen: set<string>)
    ensures InFirstOrder(s, DedupFrom(s, seen))
    decreases |s|
  {
    if |s| > 0 {
      var a := s[0];
      var t := s[1..];
      assert s == [a] + t;
      if a in seen {
        DedupFromOrder(t, seen);
        ShiftOrder(a, t, DedupFrom(t, seen));
      } else {
        var rest := DedupFrom(t, seen + {a});
        DedupFromOrder(t, seen + {a});
        ShiftOrder(a, t, rest);
        ConsOrder(a, t, rest);
      }
    }
  }

  /** A write of the links property: the property's name and the list of links. */
  datatype LinksWrite = LinksWrite(propertyName: string, links: seq<string>)

  /** Where `updateDataeditLinks` ends: an early return, a TypeError, or a write of the links. */
  datatype LinksOutcome = Skipped | Threw | Written(write: LinksWrite)

  /**
   * `updateDataeditLinks`: nothing without a property name, without
   * result values or without a render context; a truthy values object that
   * is not an array has no `flat` and throws; nothing without the note's
   * file; otherwise the property is set to the link cells, to two levels of
   * nesting, as markdown without duplicates.
   */
  function UpdateDataeditLinks(propName: string, values: Value, hasContext: bool, fileExists: bool): (r: LinksOutcome)
    ensures r.Threw? <==> propName != "" && Truthy(values) && hasContext && !values.Arr?
    ensures r.Written? <==> propName != "" && Truthy(values) && hasContext && values.Arr? && fileExists
    ensures r.Written? ==> r.write.propertyName == propName && r.write.links == Dedup(MarkdownLinks(Flat(values.items, 2)))
  {
    if propName == "" || !Truthy(values) || !hasContext then Skipped
    else if !values.Arr? then Threw
    else if !fileExists then Skipped
    else Written(LinksWrite(propName, Dedup(MarkdownLinks(Flat(values.items, 2)))))
  }

  /**
   * The links written are exactly the markdown of the link cells, each
   * once, in the order in which each first appears.
   */
  lemma LinksAreDistinctInFirstOrder(propName: string, values: Value)
    requires propName != "" && values.Arr?
    ensures UpdateDataeditLinks(propName, values, true, true).Written?
    ensures var links := UpdateDataeditLinks(propName, values, true, true).write.links;
            var all := MarkdownLinks(Flat(values.items, 2));
            NoDuplicates(links)
            && (forall x :: x in links <==> x in all)
            && InFirstOrder(all, links)
  {
    var all := MarkdownLinks(Flat(values.items, 2));
    assert Truthy(values);
    assert UpdateDataeditLinks(propName, values, true, true) == Written(LinksWrite(propName, DedupFrom(all, {})));
    DedupFromOrder(all, {});
  }

  /** Rows of cells, and arrays inside cells, are both flattened. */
  lemma FlatExample(l1: Value, l2: Value)
    requires !l1.Arr? && !l2.Arr?
    ensures Flat([Arr([l1, Str("x")]), Arr([Arr([l2, l1])])], 2) == [l1, Str("x"), l2, l1]
  {
    var row1 := [l1, Str("x")];
    var row2 := [Arr([l2, l1])];
    assert Flat([Str("x")], 1) == [Str("x")];
    assert Flat(row1, 1) == [l1, Str("x")];
    assert Flat([l2, l1], 0) == [l2, l1];
    assert Flat(row2, 1) == [l2, l1];
    assert Flat([Arr(row2)], 2) == [l2, l1];
  }

  /** A link that appears twice is written once, at its first place. */
  lemma DedupExample()
    ensures Dedup(["[[a]]", "[[b]]", "[[a]]"]) == ["[[a]]", "[[b]]"]
  {
    assert DedupFrom(["[[a]]"], {"[[a]]", "[[b]]"}) == [];
    assert DedupFrom(["[[b]]", "[[a]]"], {"[[a]]"}) == ["[[b]]"];
  }

  lemma MarkdownLinksExample(l1: Value, l2: Value)
    requires l1 == Link("a.md", "[[a]]") && l2 == Link("b.md", "[[b]]")
    ensures MarkdownLinks([l1, Str("x"), l2, l1]) == ["[[a]]", "[[b]]", "[[a]]"]
  {
    assert MarkdownLinks([l1]) == ["[[a]]"];
    assert [l1, Str("x"), l2, l1][1..] == [Str("x"), l2, l1];
    assert [Str("x"), l2, l1][1..] == [l2, l1];
    assert [l2, l1][1..] == [l1];
    assert MarkdownLinks([l2, l1]) == ["[[b]]", "[[a]]"];
    assert MarkdownLinks([Str("x"), l2, l1]) == ["[[b]]", "[[a]]"];
  }

  /** Rows of cells, and arrays inside cells, are both flattened; a link twice is written once. */
  lemma LinksExample(l1: Value, l2: Value, values: Value)
    requires l1 == Link("a.md", "[[a]]") && l2 == Link("b.md", "[[b]]")
    requires values == Arr([Arr([l1, Str("x")]), Arr([Arr([l2, l1])])])
    ensures UpdateDataeditLinks("links", values, true, true) == Written(LinksWrite("links", ["[[a]]", "[[b]]"]))
  {
    var cells := Flat(values.items, 2);
    assert cells == [l1, Str("x"), l2, l1] by {
      FlatExample(l1, l2);
    }
    var links := MarkdownLinks(cells);
    assert links == ["[[a]]", "[[b]]", "[[a]]"] by {
      MarkdownLinksExample(l1, l2);
    }
    assert Dedup(links) == ["[[a]]", "[[b]]"] by {
      DedupExample();
    }
    assert Truthy(values);
  }
}
