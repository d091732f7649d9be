# dataedit, modelled in Dafny

Dataedit is an Obsidian plugin that renders the result of a Dataview query
as an editable table. The user changes a cell in the table and the plugin
writes the new value back to the note's frontmatter or inline field. This
project models the parts of the plugin that decide something:

- the helpers of `src/lib/utils.ts`:
  - merging and pruning objects;
  - dotted-path assignment;
  - the bijective base-26 column letters;
  - `arrayMove`;
  - the property-type fallback and the alignment classes;
  - the inline-field rewrite and the branches of `updateMetaData`;
- the block-configuration store of `src/stores/global.ts`;
- how each table cell picks its input:
  - `InputSwitch`;
  - the old and the new `EditableTableData`;
- the TABLE-versus-script decision, the query/config split with its
  fallback, column aliases, and the deduplicated link list;
- the settings form: schema, defaults, backfill-then-validate, alias-list
  edits, and the reset dialog;
- the per-cell editors:
  - the list cell;
  - the number cell with its expression dialog;
  - the text cell with its suggestions;
  - the file rename;
- the keyboard and mouse selection of the suggestion popover;
- the line splice of `saveData` and the fallback of `loadData`.

JavaScript values are one datatype, `JsValues.Value`. Its cases are
`undefined`, `null`, booleans, integer numbers, `NaN`, strings, arrays,
plain objects, Luxon DateTimes (hour, minute, second), Dataview links and
functions. `Truthy`, `typeof` and `Number(...)` are defined on it.

Each file that assigns state step by step is a class. Its methods state
the new state in full:

- the store;
- the settings form and its confirmation dialog;
- the table's query results;
- the list, number and text cells;
- the suggester.

The pure logic is functions. Each function comes with lemmas that connect
it to a partner:

- an inverse (base-26 letters, split/join, plus/minus);
- a reference definition (backfill, prune, filter, splice);
- an invariant it keeps (valid settings, a selection in range).

Calls into the host become parameters of the member that needs them:

- the vault, `processFrontMatter` and `dv.page`;
- `dv.query` and `eval`;
- `JSON.parse` and YAML parsing;
- zod's issue list.

## Model

| member | source | states |
|---|---|---|
| Utils.GetPropertyType | src/lib/utils.ts:33-44 | the registered type when there is a non-empty one, otherwise "object" for a dotted name and "inline" for the rest; never empty |
| Utils.JustifyContentClass | src/lib/utils.ts:408-417 | "justify-center" exactly for "center", "justify-end" exactly for "end", "justify-start" for every other alignment |
| Utils.AlignItemsClass | src/lib/utils.ts:419-428 | "items-center" exactly for "center", "items-end" exactly for "end", "items-start" otherwise |
| Utils.JustifyDistinguishesSchemaValues | src/lib/utils.ts:408-417 | the three horizontal alignments the settings allow map to three different classes |
| Utils.AlignItemsIgnoresSchemaValues | src/lib/utils.ts:419-428 | each vertical alignment the settings allow (top, middle, bottom) gets "items-start" |
| Utils.CheckIsTag | src/lib/utils.ts:92-95 | true exactly when some prefix matches `^#[^\s].*`: a `#`, one character outside `\s`, then any run without a line terminator |
| Utils.CheckIsTagExamples | src/lib/utils.ts:92-95 | "#hello" is a tag; "world", "# wrong" and "#" are not |
| Utils.SimpleArrayCompare | src/lib/utils.ts:451-454 | true exactly when the two arrays are equal element by element and of equal length |
| Utils.Base26LettersToNumber | src/lib/utils.ts:373-380 | the reduce over the lower-cased string is its base-26 value read from the left (Horner form), each letter worth its code minus 96 |
| Utils.HornerInjective | src/lib/utils.ts:373-380 | two letter strings with the same value are the same string |
| Utils.ColumnLabelsInjective | src/lib/utils.ts:373-380 | two upper-case column labels with the same number are the same label |
| Utils.Base26Examples | src/lib/utils.ts:368-380 | A, B, C, Z, AA, AB, BY give 1, 2, 3, 26, 27, 28, 77, and "by" gives 77 as well |
| Utils.NumberToBase26Letters | src/lib/utils.ts:393-406 | "" for n ≤ 0; for n ≥ 1 a non-empty upper-case label that `base26LettersToNumber` maps back to n; so 77 gives "BY", 27 gives "AA" and 0 gives "" (`NumberToBase26LettersExamples`) |
| Utils.Backfilled | src/lib/utils.ts:125-136 | keys are those of both objects; every old key keeps its old value; every new key missing from the old object gets the new object's value |
| Utils.AddNewKeyValues | src/lib/utils.ts:125-136 | the loop over `newObj`'s keys builds exactly `Backfilled` |
| Utils.BackfilledExample | src/lib/utils.ts:116-124 | `{foo: 'bar'}` backfilled from `{foo: 'bleh', fizz: 'buzz'}` is `{foo: 'bar', fizz: 'buzz'}` |
| Utils.Pruned | src/lib/utils.ts:152-163 | keys are those of the old object that the new one also has, values unchanged |
| Utils.RemoveKeys | src/lib/utils.ts:152-163 | the deleting loop over a copy builds exactly `Pruned` |
| Utils.BackfillThenPrune | src/lib/utils.ts:125-163 | backfilling from a template and then pruning to it gives exactly the template's keys, with the saved values where they exist |
| Utils.SetAtPath | src/lib/utils.ts:178-196 | on success only the first key of the path changes and every other key keeps its value; the last key gets the value, and an earlier key gets the object that the rest of the path assigned into its old object, or into `{}` when it was missing or falsy |
| Utils.Child | src/lib/utils.ts:190 | the `current[key] or {}` of the walk: the entry when it is truthy, otherwise a fresh `{}` |
| Utils.SetSucceedsIffOpen | src/lib/utils.ts:186-192 | the assignment succeeds exactly when every intermediate entry is missing, falsy or an object |
| Utils.OpenPathSetThenGet | src/lib/utils.ts:186-192 | on every such open path the assignment succeeds and the keys then lead to the value |
| Utils.FalsyIntermediateReplaced | src/lib/utils.ts:190 | an intermediate `0`, `""`, `false`, `null`, `NaN` or `undefined` is replaced by `{}` and the assignment succeeds |
| Utils.NestedKeepsSiblings | src/lib/utils.ts:189-191 | assigning into a nested object keeps that object's other keys |
| Utils.SetThenGet | src/lib/utils.ts:178-196 | after a successful assignment, following the keys from the object reaches the assigned value |
| Utils.SetOnEmptySucceeds | src/lib/utils.ts:186-192 | missing keys are created as `{}`, so assigning any path into an empty object succeeds |
| Utils.SetThroughPrimitiveFails | src/lib/utils.ts:191-192 | a truthy non-object in the middle of the path makes the assignment throw |
| Utils.IterateStringKeys | src/lib/utils.ts:178-196 | succeeds exactly when every intermediate entry on the dotted path is missing, falsy or an object; on success, reading the path back gives the value, the other top-level keys keep their values, and inside an existing object at the first key the keys off the path keep theirs |
| Utils.IterateStringKeysExample | src/lib/utils.ts:170-196 | "propName.some.nested.property" set on `{}` gives the four nested objects that end in the value |
| Utils.DottedPathSplits | src/lib/utils.ts:173-183 | four dot-free keys joined by dots split back into exactly those four keys |
| Utils.NestedAssignment | src/lib/utils.ts:186-196 | assigning along four keys on `{}` creates the three missing levels as objects and puts the value under the last key |
| Utils.SpliceStart | src/lib/utils.ts:437-443 | where `splice` starts: a negative start counts from the end, and both ends are clamped |
| Utils.Splice | src/lib/utils.ts:437-443 | the array `splice` leaves: the prefix up to the start, the inserted items, then the rest after the deleted ones |
| Utils.RemoveAtMultiset | src/lib/utils.ts:437-443 | removing an element and adding it back gives the same multiset |
| Utils.MovedInRange | src/lib/utils.ts:437-443 | moving an existing element keeps the length and the multiset; the element lands at `toIndex` clamped as `splice` clamps, and the others keep their order |
| Utils.MovedPastEnd | src/lib/utils.ts:437-443 | an index past the end removes nothing and inserts `undefined` at the clamped `toIndex` |
| Utils.MovedNegative | src/lib/utils.ts:437-443 | a negative index reads `undefined` but `splice` removes the element counted from the end |
| Utils.SpliceOutOne | src/lib/utils.ts:440 | `splice(start, 1)` removes the element at the clamped start, or nothing when that is the end |
| Utils.SpliceInOne | src/lib/utils.ts:441 | `splice(start, 0, el)` puts `el` at the clamped start, and removing it gives the array back |
| Utils.ArrayMove | src/lib/utils.ts:437-443 | for an index in range: a permutation of the same length, the moved element at `toIndex` (clamped as `splice` clamps) and the others in their relative order; an index past the end inserts `undefined`; a negative one removes from the end and inserts `undefined`, and on an empty array gives `[undefined]` |
| Utils.IndexOf | src/lib/utils.ts:276-279 | the first index where the pattern occurs, or none where it does not occur |
| Utils.SubstitutionLiteral | src/lib/utils.ts:277-282 | a replacement without `$` is inserted as it is |
| Utils.ReplaceFirst | src/lib/utils.ts:277-282 | a string without the pattern is unchanged |
| Utils.ReplaceFirstLiteral | src/lib/utils.ts:277-282 | with a `$`-free replacement, the first occurrence and nothing else is replaced |
| Utils.DollarPatternExample | src/lib/utils.ts:277-282 | a `$$` in the new value is written as one `$` |
| Utils.FindField | src/lib/utils.ts:260-276 | the first parsed field with the property's key whose printed value equals the old value; "no match" exactly when there is none |
| Utils.UpdateInlineField | src/lib/utils.ts:250-287 | the chosen field's line is rewritten and every other line is identical; a missing field is an error |
| Utils.RewriteLineHitsKey | src/lib/utils.ts:277-282 | as written, `x1:: 1` set from 1 to 2 becomes `x2:: 1`: the key is rewritten, not the value |
| Utils.LastIndexOf | src/lib/utils.ts:277-282 | the last occurrence at or before a bound |
| Utils.RewriteValueKeepsKey | src/lib/utils.ts:277-282 | the corrected rewrite replaces the value at the end of the match and keeps everything before it |
| Utils.RewriteValueExample | src/lib/utils.ts:277-282 | corrected, `x1:: 1` set from 1 to 2 becomes `x1:: 2` |
| Utils.CheckForInlineField | src/lib/utils.ts:198-209 | throws exactly when Dataview has no page for the file; otherwise a value is found exactly when the page has the field and the frontmatter does not |
| Utils.UpdateMetaData | src/lib/utils.ts:296-339 | a missing file throws; a dotted name goes through `iterateStringKeys`; an undotted name throws when Dataview has no page for the file; an undotted frontmatter key is set; an inline field that is strictly equal is left alone, otherwise it is rewritten |
| GlobalStore.PluginSettingsStore.constructor | src/stores/global.ts:22-23 | the store starts with empty settings |
| GlobalStore.PluginSettingsStore.SetSettings | src/stores/global.ts:24-32 | the settings become `cb` of the previous settings |
| GlobalStore.PluginSettingsStore.GetBlockConfig | src/stores/global.ts:33-43 | the default block config without `blockConfigs`, otherwise the block's entry, else the "default" entry; nothing only when both are missing |
| GlobalStore.PluginSettingsStore.CurrentConfig | src/stores/global.ts:46-47 | the block's own entry, else the default block config |
| GlobalStore.PluginSettingsStore.SetBlockConfig | src/stores/global.ts:44-60 | throws exactly when `blockConfigs` is absent and then changes nothing; otherwise stores `cb(current)` or `cb` at the id and keeps every other entry |
| GlobalStore.PluginSettingsStore.SetBlockConfigCorrected | src/stores/global.ts:44-60 | the same update, starting from an empty map when `blockConfigs` is absent |
| GlobalStore.SetBlockConfigOnFreshStore | src/stores/global.ts:44-60 | on a fresh store the call as written throws, and the corrected call stores the config |
| Inputs.DeclaredKind | src/components/Inputs/index.tsx:49-103 | falsy values: checkbox → boolean, date → date, datetime → date with time, multitext/tags → list, number → number, any other type → string |
| Utils.IsDateWithTime | src/lib/utils.ts:354-360 | a DateTime has a time exactly when its hour, minute and second are not all 0, that is, when it is past midnight |
| Inputs.RuntimeKind | src/components/Inputs/index.tsx:106-155 | truthy values by shape: string, number, boolean, array, DateTime (with time unless h, m and s are 0), a link as a string of its markdown, `[Object object]` for other objects, markdown for functions |
| Inputs.InputSwitch | src/components/Inputs/index.tsx:29-155 | the file column first, then the declared type for falsy values, then the shape of truthy ones |
| Inputs.FileColumnAnyCase | src/components/Inputs/index.tsx:29-33 | "File", "FILE", "FILE.LINK" and the other spellings render as markdown whatever the value |
| Inputs.TruthyIgnoresDeclaredType | src/components/Inputs/index.tsx:106-113 | a truthy value's input does not depend on the declared type |
| Inputs.FalsyUsesDeclaredType | src/components/Inputs/index.tsx:49-103 | `0`, `false`, `""` and `null` get the same input, the declared type's |
| Inputs.IsFileProperty | src/components/Inputs/index.tsx:29-33 | the file input is chosen exactly when the type or the name is "file", or the name is "file.link", each up to the case of ASCII letters |
| Inputs.ShapeOverridesType | src/components/Inputs/index.tsx:49-113 | 5 typed as text gets a number input, but 0, being falsy, gets the declared string input |
| Inputs.ObjectShapesOverrideType | src/components/Inputs/index.tsx:123-141 | a link typed as a number gets a string input with its markdown; a DateTime at midnight typed as datetime gets a date without time |
| PluginSettings.Strip | src/components/PluginSettings/index.tsx:46-55 | the parsed data keeps only the schema's keys, values unchanged |
| PluginSettings.ParsedData | src/components/PluginSettings/index.tsx:46-55 | parsing succeeds exactly for objects that satisfy the schema, and gives a valid object with the schema's keys |
| PluginSettings.IsSettings | src/components/PluginSettings/index.tsx:46-55 | an object satisfies the schema exactly when it has both booleans, the three strings, a list of string lists as aliases, and a vertical and a horizontal alignment from their three values; other keys do not matter |
| PluginSettings.DefaultsAreSettings | src/components/PluginSettings/index.tsx:59-68 | the defaults (`DEFAULT_SETTINGS`, `defaultSettings`) satisfy the schema and have exactly its keys |
| PluginSettings.BackfilledValidIff | src/components/PluginSettings/index.tsx:78-79 | backfilled saved settings are valid exactly when each schema key they already hold has a value of the right type |
| PluginSettings.EmptySavedGivesDefaults | src/components/PluginSettings/index.tsx:78-80 | an empty saved object comes out as exactly the defaults |
| PluginSettings.PathStrings | src/components/PluginSettings/index.tsx:104 | each path element as a string, in order |
| PluginSettings.ErrorRows | src/components/PluginSettings/index.tsx:102-107 | one row per issue: its path joined with ", ", and its message |
| PluginSettings.RemoveAlias | src/components/PluginSettings/index.tsx:530-533 | entry i is gone and the others keep their order; an index out of range keeps the list |
| PluginSettings.AddAlias | src/components/PluginSettings/index.tsx:568-569 | `["", ""]` is appended and nothing else changes |
| PluginSettings.SetAliasPart | src/components/PluginSettings/index.tsx:593-596 | only slot 0 (name) or 1 (alias) of entry `index` changes; a missing entry throws |
| PluginSettings.AliasEditsPreserveValidity | src/components/PluginSettings/index.tsx:530-596 | removing, adding and editing aliases keeps a valid alias list valid |
| PluginSettings.AliasOnEmptyEntryLeavesHole | src/components/PluginSettings/index.tsx:657-660 | setting the alias of an empty entry leaves a hole at its name, and the list no longer validates |
| PluginSettings.SettingsForm.constructor | src/components/PluginSettings/index.tsx:77-80 | the form is the saved settings backfilled and parsed: undefined exactly when a saved schema key is invalid |
| PluginSettings.SettingsForm.UpdateForm | src/components/PluginSettings/index.tsx:81-87 | only `key` changes |
| PluginSettings.SettingsForm.FormEffect | src/components/PluginSettings/index.tsx:121-142 | the backfilled form is saved exactly when it validates |
| PluginSettings.SettingsForm.OnExternalSettingsChange | src/components/PluginSettings/index.tsx:89-119 | valid loaded data replaces the form; invalid data keeps the form and records the error rows |
| PluginSettings.SettingsForm.OnResetDialogClosed | src/components/PluginSettings/index.tsx:173-176 | the form becomes the defaults only when the dialog was confirmed |
| PluginSettings.InvalidSavedSettingsAreReplaced | src/components/PluginSettings/index.tsx:78-130 | invalid saved settings leave the form undefined, and the effect that follows saves the defaults over them |
| PluginSettings.ConfirmationDialog.constructor | src/components/PluginSettings/index.tsx:281-293 | an open dialog, not confirmed |
| PluginSettings.ConfirmationDialog.Cancel | src/components/PluginSettings/index.tsx:306-319 | closes and reports false (the confirmation flag as it was) |
| PluginSettings.ConfirmationDialog.Confirm | src/components/PluginSettings/index.tsx:313-319 | sets the flag, closes and reports true |
| PluginSettings.ResetThroughDialog | src/components/PluginSettings/index.tsx:166-177 | the form is reset to the defaults exactly when the confirm button was pressed |
| EditableTable.EditableTableData | src/components/EditableTable/index.tsx:148-177 | a link value gets the link view before the type is consulted; then list, date and datetime placeholders, checkbox, number, and string for the rest |
| EditableTable.UnregisteredIsString | src/components/EditableTable/index.tsx:150-176 | with no registered type, a non-link value gets the string input |
| EditableTable.IsTableQuery | src/components/EditableTable/index.tsx:59 | a TABLE query exactly when the text is "TABLE" or starts with "TABLE" and a space; case matters |
| EditableTable.UpperTableIsQuery | src/components/EditableTable/index.tsx:59 | "TABLE file.name" is a Dataview query |
| EditableTable.LowerTableIsScript | src/components/EditableTable/index.tsx:59 | "table file.name" is a script: the test is case-sensitive |
| EditableTable.TableNewlineIsScript | src/components/EditableTable/index.tsx:59 | "TABLE\nfile.name" is a script: only a space ends the first word |
| EditableTable.TextBeforeSpace | src/components/EditableTable/index.tsx:59 | the first space-separated word is the text before the first space |
| EditableTable.RowFile | src/components/EditableTable/index.tsx:130 | a row's file is its first cell |
| EditableTable.TableState.constructor | src/components/EditableTable/index.tsx:28 | no query results yet |
| EditableTable.TableState.RunQuery | src/components/EditableTable/index.tsx:56-71 | a successful Dataview result, or a truthy script result, replaces the results; anything else keeps them |
| EditableTable.TableState.DoQuery | src/components/EditableTable/index.tsx:56-71 | the block runs as a query exactly when its first word is "TABLE", and otherwise as a script |
| OldEditableTable.SplitBlock | src/components/old/EditableTable/index.tsx:56-57 | the query is the text before the first `---` line, and the config the part after it |
| OldEditableTable.SplitBlockOfJoined | src/components/old/EditableTable/index.tsx:56-57 | a query and a config without a separator line, joined by one, split back into themselves |
| OldEditableTable.SplitBlockWithoutSeparator | src/components/old/EditableTable/index.tsx:56-57 | a block without a `---` line is all query, with no config |
| OldEditableTable.ConfigObject | src/components/old/EditableTable/index.tsx:59-65 | the parsed YAML object, or `{}` when parsing fails |
| OldEditableTable.ParsedConfig | src/components/old/EditableTable/index.tsx:69-84 | the config backfilled from the plugin settings and parsed; the plugin settings when that is invalid |
| OldEditableTable.ParsedConfigOverrides | src/components/old/EditableTable/index.tsx:69-84 | with valid plugin settings the result is valid; a valid block config overrides them key by key, and an invalid one is dropped whole |
| OldEditableTable.UnparsableConfigUsesPluginSettings | src/components/old/EditableTable/index.tsx:59-84 | a config that does not parse gives the plugin settings, keeping only the schema's keys |
| OldEditableTable.IsTableQuery | src/components/old/EditableTable/index.tsx:117 | a table query exactly when the first five characters are "table" in any case, followed by the end or a space |
| OldEditableTable.TableQueryIgnoresCase | src/components/old/EditableTable/index.tsx:117 | "Table ..." is a query here, though the newer table treats it as a script |
| OldEditableTable.DoQuery | src/components/old/EditableTable/index.tsx:114-129 | a query exactly when the first word, lowercased, is "table"; the results as in the newer table |
| OldEditableTable.EditableTableData | src/components/old/EditableTable/index.tsx:281-310 | "file" in any case, or "file.link", gets the file input first; then list, date, datetime, checkbox, number, and string by declared type |
| OldEditableTable.FileBeforeType | src/components/old/EditableTable/index.tsx:285-287 | a "File" column registered as a number still gets the file input |
| OldEditableTable.FindAlias | src/components/old/EditableTable/index.tsx:322-324 | the index of the first alias entry whose name is the header |
| OldEditableTable.GetAlias | src/components/old/EditableTable/index.tsx:319-328 | the second element of that first entry, or nothing without such an entry |
| OldEditableTable.HeaderLabel | src/components/old/EditableTable/index.tsx:336-352 | the alias when there is one, otherwise the header |
| OldEditableTable.AliasFirstEntryWins | src/components/old/EditableTable/index.tsx:319-352 | the first matching entry wins; a name-only entry shows the header; an empty alias shows as empty |
| OldEditableTable.FileColumnIndex | src/components/old/EditableTable/index.tsx:239-244 | the first header that is "File" or "file.link", or -1 without one |
| OldEditableTable.RowFile | src/components/old/EditableTable/index.tsx:237-246 | the cell at that index, `undefined` for -1 or past the row's end |
| OldEditableTable.Flat | src/components/old/EditableTable/index.tsx:138 | depth 0 leaves the list as it is |
| OldEditableTable.MarkdownLinks | src/components/old/EditableTable/index.tsx:139-140 | exactly the markdown texts of the link cells |
| OldEditableTable.FirstIndex | src/components/old/EditableTable/index.tsx:141-142 | the first index where a value occurs |
| OldEditableTable.DedupFrom | src/components/old/EditableTable/index.tsx:141-142 | the values not yet seen, without duplicates |
| OldEditableTable.DedupFromOrder | src/components/old/EditableTable/index.tsx:141-142 | the kept values appear in the order of their first occurrence |
| OldEditableTable.UpdateDataeditLinks | src/components/old/EditableTable/index.tsx:131-149 | a truthy results object that is not an array throws; otherwise written exactly when the property name, the results, the context and the file are all there; the links are the flattened link cells as markdown, deduplicated |
| OldEditableTable.LinksAreDistinctInFirstOrder | src/components/old/EditableTable/index.tsx:137-142 | the written links are each link that occurs, once, in first-occurrence order |
| OldEditableTable.FlatExample | src/components/old/EditableTable/index.tsx:138 | `flat(2)` flattens two levels of nesting |
| OldEditableTable.DedupExample | src/components/old/EditableTable/index.tsx:141-142 | a repeated link is kept at its first place only |
| OldEditableTable.MarkdownLinksExample | src/components/old/EditableTable/index.tsx:139-140 | links map to their markdown and other cells are dropped |
| OldEditableTable.LinksExample | src/components/old/EditableTable/index.tsx:131-149 | a table with a link twice and a plain cell writes the two links once each |
| ArrayInput.CellAt | src/components/Inputs/ArrayInput/index.tsx:55-67 | the row's cell, `undefined` past its end |
| ArrayInput.Appended | src/components/Inputs/ArrayInput/index.tsx:55-59 | an array or an absent list gains `""` at its end; any other value throws |
| ArrayInput.KeepOthers | src/components/Inputs/ArrayInput/index.tsx:133-137 | the filter drops exactly the element at the index and keeps the others in order |
| ArrayInput.Removed | src/components/Inputs/ArrayInput/index.tsx:132-137 | on an array, exactly item `itemIndex` is removed; other values throw |
| ArrayInput.Typed | src/components/Inputs/ArrayInput/index.tsx:204-211 | an array gets the text at the index and keeps every other item; an object gains the key; primitives and nullish values throw |
| ArrayInput.UpdatedList | src/components/Inputs/ArrayInput/index.tsx:98-104 | same length; the new value (or the current item) at the index; every other item as it was with links as markdown; no links remain |
| ArrayInput.QueryRows.constructor | src/components/Inputs/ArrayInput/index.tsx:61-64 | the results hold the given rows |
| ArrayInput.QueryRows.ReplaceRow | src/components/Inputs/ArrayInput/index.tsx:61-216 | only the given row changes |
| ArrayInput.OnPlus | src/components/Inputs/ArrayInput/index.tsx:55-67 | the appended list goes into that row's copy and is written; a throw changes nothing |
| ArrayInput.OnRemove | src/components/Inputs/ArrayInput/index.tsx:132-144 | the list without the item goes into the row and is written; a throw changes nothing |
| ArrayInput.OnType | src/components/Inputs/ArrayInput/index.tsx:204-217 | the typed list goes into the row and nothing is written to the note |
| ArrayInput.ArrayItem.constructor | src/components/Inputs/ArrayInput/index.tsx:155-156 | the item starts as text, not editing |
| ArrayInput.ArrayItem.Activate | src/components/Inputs/ArrayInput/index.tsx:179-190 | a click or focus starts editing |
| ArrayInput.ArrayItem.Blur | src/components/Inputs/ArrayInput/index.tsx:218-221 | the list is written; editing ends once the awaited write resolves, and goes on when it rejects |
| ArrayInput.ArrayItem.Suggested | src/components/Inputs/ArrayInput/index.tsx:120 | the picked suggestion is written at the item |
| ArrayInput.PlusThenRemoveRestores | src/components/Inputs/ArrayInput/index.tsx:55-137 | the plus button followed by the new item's X gives back the original list |
| ArrayInput.TypeThenBlurWrites | src/components/Inputs/ArrayInput/index.tsx:98-221 | typing into an item and leaving it writes the text there and every other item as it was |
| Popover.Next | src/components/ui/Popover/index.tsx:47-54 | from nothing or the last index to 0; otherwise to the next index |
| Popover.Prev | src/components/ui/Popover/index.tsx:56-63 | from nothing or 0 to the last index; otherwise to the previous one |
| Popover.KeyStep | src/components/ui/Popover/index.tsx:65-78 | ArrowDown selects the next, ArrowUp the previous, Escape clears, other keys keep the selection |
| Popover.StepsStayInRange | src/components/ui/Popover/index.tsx:47-63 | over a non-empty list both steps stay inside it |
| Popover.ReachableInRange | src/components/ui/Popover/index.tsx:47-78 | every selection reachable by keys over a non-empty list is inside it |
| Popover.NextPrevInverse | src/components/ui/Popover/index.tsx:47-63 | ArrowUp undoes ArrowDown and the reverse, wrapping around included |
| Popover.EmptyListSelectsOutside | src/components/ui/Popover/index.tsx:47-63 | over an empty list the arrows select 0 and -1, both outside it |
| Popover.NoticeFor | src/components/ui/Popover/index.tsx:80-82 | `onSelect` gets the selected suggestion, or `undefined` when the index is outside the list |
| Popover.Suggester.constructor | src/components/ui/Popover/index.tsx:44-82 | nothing selected, and one `onSelect` call for it |
| Popover.Suggester.SetSelected | src/components/ui/Popover/index.tsx:44-82 | a changed selection calls `onSelect` once; an equal one calls nothing |
| Popover.Suggester.Rerender | src/components/ui/Popover/index.tsx:44 | a new list keeps the selection |
| Popover.Suggester.HandleKeyPress | src/components/ui/Popover/index.tsx:65-90 | as written, the keys step over the list of the first render |
| Popover.Suggester.HandleKeyPressCorrected | src/components/ui/Popover/index.tsx:65-78 | the keys step over the current list and keep the selection inside it |
| Popover.Suggester.MouseEnter | src/components/ui/Popover/index.tsx:106-108 | entering item i selects it |
| Popover.Suggester.MouseLeave | src/components/ui/Popover/index.tsx:109-111 | leaving clears the selection |
| Popover.StaleListExample | src/components/ui/Popover/index.tsx:84-90 | mounted with three suggestions and narrowed to one, two ArrowDowns select 1 as written (outside the list) and 0 when corrected |
| FileInput.FirstLine | src/components/Inputs/FileInput/index.tsx:26 | the text up to the first line terminator, which `.` cannot cross |
| FileInput.LastSlash | src/components/Inputs/FileInput/index.tsx:26 | the last '/' before the end, or none |
| FileInput.DirCapture | src/components/Inputs/FileInput/index.tsx:26-31 | the greedy capture: the first line's text before its last '/', and no match without a '/' |
| FileInput.NewPath | src/components/Inputs/FileInput/index.tsx:27-32 | as written, the folder, the whole entered name and ".md"; always ends in ".md" |
| FileInput.NewPathCorrected | src/components/Inputs/FileInput/index.tsx:26-32 | the folder keeps its '/'; always ends in ".md" |
| FileInput.UpdateFileName | src/components/Inputs/FileInput/index.tsx:21-34 | no rename when the note is not in the vault; otherwise a rename to the new path |
| FileInput.DirOfNestedPath | src/components/Inputs/FileInput/index.tsx:26 | for `dir/name` on one line the capture is `dir` |
| FileInput.DirOfTopLevelPath | src/components/Inputs/FileInput/index.tsx:26 | a path without '/' has no folder |
| FileInput.NewPathDropsSlash | src/components/Inputs/FileInput/index.tsx:31-32 | as written, renaming `dir/name` gives `dir` + value + ".md", without the slash |
| FileInput.NewPathCorrectedKeepsFolder | src/components/Inputs/FileInput/index.tsx:31-32 | corrected, the note stays in its folder; a top-level note gives the same path as written |
| FileInput.ExamplePath | src/components/Inputs/FileInput/index.tsx:26 | "notes/a.md" is "notes", '/', "a.md" on one line |
| FileInput.RenameExample | src/components/Inputs/FileInput/index.tsx:26-32 | as written, "notes/a.md" renamed to "b" becomes "notesb.md" |
| FileInput.RenameExampleCorrected | src/components/Inputs/FileInput/index.tsx:26-32 | corrected, it becomes "notes/b.md" |
| SaveLoad.LinesThrough | src/saveload.ts:14 | the lines with index up to `lineStart`, in order |
| SaveLoad.LinesFrom | src/saveload.ts:15 | the lines with index from `lineEnd` on, in order |
| SaveLoad.SavedContent | src/saveload.ts:13-17 | for data without a newline, the saved text's lines are the lines through `lineStart`, the data, then the lines from `lineEnd` (one empty line when there are none) |
| SaveLoad.SaveData | src/saveload.ts:3-20 | nothing without an active file; otherwise the spliced content |
| SaveLoad.LoadData | src/saveload.ts:22-31 | the parsed value, or `{entries: []}` for empty input or a parse error |
| SaveLoad.LoadFallsBack | src/saveload.ts:22-31 | any other result comes from parsing non-empty input |
| NumberInput.Evaluate | src/components/Inputs/NumberInput/index.tsx:35-47 | a throw or a result that `Number` makes NaN sets the error with its message; a number clears it |
| NumberInput.MinusWrite | src/components/Inputs/NumberInput/index.tsx:110-116 | the current value minus 1, NaN staying NaN |
| NumberInput.PlusWrite | src/components/Inputs/NumberInput/index.tsx:122-131 | the current value plus 1, NaN staying NaN |
| NumberInput.MinusPlusInverse | src/components/Inputs/NumberInput/index.tsx:110-131 | minus undoes plus, and plus undoes minus |
| NumberInput.NumberCell.constructor | src/components/Inputs/NumberInput/index.tsx:27-47 | `eval("")` is undefined, so the update button starts disabled |
| NumberInput.NumberCell.SetExpression | src/components/Inputs/NumberInput/index.tsx:35-181 | a changed expression is evaluated again; an invalid one cannot enable the update |
| NumberInput.NumberCell.OpenDialog | src/components/Inputs/NumberInput/index.tsx:119 | opens the dialog |
| NumberInput.NumberCell.Cancel | src/components/Inputs/NumberInput/index.tsx:186 | closes the dialog and writes nothing |
| NumberInput.NumberCell.Update | src/components/Inputs/NumberInput/index.tsx:191-199 | enabled only without an error; closes the dialog and writes the calculated number |
| NumberInput.NumberCell.Activate | src/components/Inputs/NumberInput/index.tsx:69-70 | a click or focus starts editing |
| NumberInput.NumberCell.Blur | src/components/Inputs/NumberInput/index.tsx:93-100 | writes `Number(value)`; editing ends once the awaited write resolves, and goes on when it rejects |
| NumberInput.NumberCell.Enter | src/components/Inputs/NumberInput/index.tsx:49-52 | writes `Number(value)` |
| NumberInput.TypedRow | src/components/Inputs/NumberInput/index.tsx:82-92 | an array row gets `Number(text)` at the column; other rows throw |
| NumberInput.OnType | src/components/Inputs/NumberInput/index.tsx:82-92 | only `values[row][col]` changes, and nothing is written to the note |
| NumberInput.TypeThenBlurWritesNumber | src/components/Inputs/NumberInput/index.tsx:82-100 | typing a printed integer and leaving writes that integer |
| NumberInput.NumericResultEnablesUpdate | src/components/Inputs/NumberInput/index.tsx:35-191 | an expression that gives a number enables the update, which writes that number |
| StringInput.FilterContaining | src/components/Inputs/StringInput/index.tsx:51-57 | exactly the values that contain the query |
| StringInput.GetSuggestions | src/components/Inputs/StringInput/index.tsx:51-57 | undefined exactly when there are no known values; otherwise the filtered values |
| StringInput.FilterConcat | src/components/Inputs/StringInput/index.tsx:51-57 | the filter keeps the original order |
| StringInput.EmptyQueryKeepsAll | src/components/Inputs/StringInput/index.tsx:51-57 | an empty query suggests every known value |
| StringInput.FilterIdempotent | src/components/Inputs/StringInput/index.tsx:51-57 | filtering twice by the same query is filtering once |
| StringInput.StringCell.constructor | src/components/Inputs/StringInput/index.tsx:23-26 | not editing, no suggestions, nothing selected, the query being the value |
| StringInput.StringCell.Click | src/components/Inputs/StringInput/index.tsx:64-76 | when locked, a click does nothing; otherwise editing starts with suggestions shown |
| StringInput.StringCell.Commit | src/components/Inputs/StringInput/index.tsx:28-39 | writes the selected suggestion when there is one, else the typed value; once the awaited write resolves, editing ends and suggestions are hidden, and when it rejects both stay as they were |
| StringInput.StringCell.Blur | src/components/Inputs/StringInput/index.tsx:97 | the same write as a commit, with the same outcome for a resolved or a rejected write |
| StringInput.StringCell.KeyDown | src/components/Inputs/StringInput/index.tsx:41-49 | Enter commits, ending editing only when the write resolves; Escape only hides suggestions; other keys change nothing |
| StringInput.StringCell.Type | src/components/Inputs/StringInput/index.tsx:96 | the query becomes the typed text |
| StringInput.StringCell.Select | src/components/Inputs/StringInput/index.tsx:85-88 | the selection, undefined included, becomes the selected suggestion |
| JsValues.IsLink | src/lib/utils.ts:97-102 | among the modelled values, the truthy objects with a `markdown` method are exactly the links |
| JsValues.TryToMarkdownLink | src/lib/utils.ts:97-109 | a link becomes its markdown string; every other value is unchanged; the result is never a link |
| JsValues.SetElement | src/components/Inputs/ArrayInput/index.tsx:204-211 | `arr[j] = v`: `v` at j, other indices unchanged, the array grown with holes up to j |
| JsValues.ReadDigits | src/components/Inputs/NumberInput/index.tsx:82-92 | `Number` of a non-empty string of digits is its decimal value |
| JsValues.ReadNegativeDigits | src/components/Inputs/NumberInput/index.tsx:82-92 | `Number` of a minus sign and digits is minus their value |
| JsValues.NaturalRoundTrip | src/components/Inputs/NumberInput/index.tsx:82-92 | `Number` of the numeral of a natural number is that number |
| JsValues.NegativeRoundTrip | src/components/Inputs/NumberInput/index.tsx:82-92 | `Number` of a minus sign and a numeral is minus its number |
| JsValues.IntStringRoundTrip | src/components/Inputs/NumberInput/index.tsx:82-92 | `Number` of a printed integer is that integer |
| Strings.Split | src/saveload.ts:13 | at least one part, none containing the separator |
| Strings.JoinSplit | src/saveload.ts:13-15 | joining the parts with the separator gives back the string |
| Strings.SplitJoin | src/saveload.ts:13-17 | splitting lines without the separator, joined by it, gives back the lines |
| Strings.ToLower | src/lib/utils.ts:375 | same length, each character lower-cased |
| Strings.FirstPieceIs | src/components/EditableTable/index.tsx:59 | the first piece of a split at a character is a word without it exactly when the string is that word or starts with it and the character |
| Strings.FirstWordIgnoringCase | src/components/old/EditableTable/index.tsx:117 | the lower-cased first word is a given lower-case word exactly when the string starts with it in any case, followed by the end or a space |
| Strings.LowerEqualsIff | src/components/Inputs/index.tsx:30-32 | lower-casing gives a lower-case string exactly when the two agree up to case, character by character |

## Left out

- Floating point: numbers are integers, and `Infinity` is not a value.
- JsValues.ToNumber: NaN in the model for inputs where JavaScript gives a number. These are a fraction, an exponent, `"Infinity"`, and hexadecimal, binary (`0b`) or octal (`0o`) literals. They also include `[5]` and a Luxon DateTime, whose `valueOf()` is its epoch milliseconds. For example `"1e3"` is 1000 in JavaScript and NaN here. These reach `NumberInput.Evaluate`, `NumberCell.Blur`, `NumberCell.Enter`, `NumberInput.TypedRow`, `NumberInput.OnType`, `NumberInput.MinusWrite` and `NumberInput.PlusWrite`.
- Case mapping covers ASCII letters only.
- JsValues.IsLink: only Dataview links count. `checkIsLink` tests the shape, so a plain object whose `markdown` entry is a function, such as `Obj` with `markdown` mapped to `Func`, counts as a link in the code but is a plain object in the model.
- JsValues.StringOf: a function prints as the placeholder "function". `String(f)` in JavaScript gives the function's source text, which the model does not carry.
- A `char` is one Unicode scalar value. JavaScript's `length` and indices count UTF-16 code units, so they differ from the model for text outside the Basic Multilingual Plane, and lone surrogates cannot be represented.
- Trimming in `Number(...)` covers the common JavaScript whitespace characters, not every Unicode space.
- YAML parsing, `JSON.parse`, `eval`, `dv.query` and zod's issue list are inputs of the members that use them.
- OldEditableTable.ConfigObject: a parsed YAML array or string is treated as `{}`. The code would spread its indices or characters into keys.
- Utils.SetAtPath: an array, DateTime, link or function in the middle of a path fails. The code would give them a property.
- Utils.StrictEquals: any two objects compare unequal. This is right for values read back from a page, which are fresh objects.
- The `lastIndex` state of the global regular expressions that parse inline fields and column aliases. The parsed fields are an input.
- The doc comment of `iterateStringKeys` describes its argument differently from what the code does; the model follows the code.
- Asynchrony and ordering:
  - the vault, `processFrontMatter`, `renameFile` and the metadata-cache subscriptions are left out;
  - in `updateMetaData` the inline rewrite is an async function returned from the `processFrontMatter` callback, which does not await it. A failed rewrite therefore does not make `await updateMetaData(...)` throw; it becomes an unhandled rejection. The model returns `Thrown(Inline(e))` for it instead.
- Aliasing: `copyPrev` and `copyAliasArr` are shallow copies, so the old state shares its inner arrays with the new. In the list cell, `toPlainArray` returns a plain array as it is. So `copyValues` and `copyList` are the row and the list of the current results themselves, and `push` and the index assignments change those in place. The model follows values and does not show that sharing.
- Wiring between files: values passed between files are not followed. Examples are `getSuggestions` passed where `Suggester` expects `renderSuggestions`, and `dvRenderNullAs` and `BlockConfigSchema`, which are not defined in the files modelled.
- Popover.Suggester: the suggestion list is always a list. The code's list can be `undefined`, and then it throws.
- ArrayInput.Typed: a property set on a DateTime, a link or a function is not recorded; the object is kept as it was.
- NumberInput.TypedRow: a row that is not an array counts as a throw. In JavaScript an object row would gain the property.
- SaveLoad.SavedContent: the serialised data is assumed to have no newline, as `JSON.stringify` output without indentation has none.
- FileInput.DirCapture handles only the four JavaScript line terminators.
- JSX rendering, Radix and Obsidian widgets, dates beyond their hour/minute/second test, the hooks, and the plugin lifecycle.
- The checkbox and boolean inputs, which only pass a DOM value on.

## Findings

| source | as written | input that shows it | evidently intended | confidence | as-written member | corrected member |
|---|---|---|---|---|---|---|
| src/lib/utils.ts:277-282 | the old value's text is replaced at its first occurrence inside the matched `key:: value` text, which can be inside the key | field `x1:: 1` set from 1 to 2 gives `x2:: 1` | replace the value, which ends the match, and keep the key | not executed | Utils.RewriteLineHitsKey | Utils.RewriteValueExample |
| src/stores/global.ts:46-54 | `prev?.settings?.blockConfigs[id]` indexes `blockConfigs` even when it is undefined | `setBlockConfig("b", c)` on a fresh store, whose settings are `{}`, throws a TypeError | start from the default block config and an empty map | not executed | GlobalStore.PluginSettingsStore.SetBlockConfig | GlobalStore.PluginSettingsStore.SetBlockConfigCorrected |
| src/components/ui/Popover/index.tsx:65-90 | the keydown handler is registered once, at mount, so `selectNext`/`selectPrev` use the length of the first render's list | mount with ["a", "ab", "abc"], narrow to ["abc"], press ArrowDown twice: index 1 is selected outside the one-item list | step over the list currently shown | not executed | Popover.StaleListExample | Popover.Suggester.HandleKeyPressCorrected |
| src/components/Inputs/FileInput/index.tsx:26-32 | `${oldPathNoFile}${newFileNoExt}.md` drops the '/' that the capture stopped before | "notes/a.md" renamed to "b" moves the note to "notesb.md" at the vault's top level | "notes/b.md" | not executed | FileInput.RenameExample | FileInput.RenameExampleCorrected |
