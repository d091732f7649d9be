// `src/saveload.ts`: writing a block's data back into the note by splicing one
// serialised line between the block's opening line and its closing line, and
// reading the data back with a fallback.

module SaveLoad {
  import opened Wrappers
  import opened Strings
  import opened JsValues

  /** `lines.filter((_, i) => i <= lineStart)`: the lines up to and including the block's first line. */
  function LinesThrough(lines: seq<string>, lineStart: nat): (r: seq<string>)
    ensures |r| == if lineStart < |lines| then lineStart + 1 else |lines|
    ensures forall i :: 0 <= i < |r| ==> r[i] == lines[i]
  {
    if lineStart < |lines| then lines[..lineStart + 1] else lines
  }

  /** `lines.filter((_, i) => i >= lineEnd)`: the lines from the block's last line on. */
  function LinesFrom(lines: seq<string>, lineEnd: nat): (r: seq<string>)
    ensures |r| == if lineEnd < |lines| then |lines| - lineEnd else 0
    ensures forall i :: 0 <= i < |r| ==> r[i] == lines[lineEnd + i]
  {
    if lineEnd < |lines| then lines[lineEnd..] else []
  }

  /**
   * The new note text of `saveData`: the kept lines before, the serialised
   * data on a line of its own, and the kept lines after. When the data holds
   * no newline (`JSON.stringify` output has none), the lines of the new text are
   * the lines through `lineStart`, then the data, then the lines from
   * `lineEnd`; when there are none of those the note ends with an empty line.
   */
  function SavedContent(content: string, lineStart: nat, lineEnd: nat, payload: string): (r: string)
    ensures '\n' !in payload ==>
              var lines := Split(content, "\n");
              Split(r, "\n") == LinesThrough(lines, lineStart) + [payload] + (if lineEnd < |lines| then lines[lineEnd..] else [""])
  {
    var lines := Split(content, "\n");
    SplicedLines(lines, lineStart, lineEnd, payload);
    Join(LinesThrough(lines, lineStart), "\n") + "\n" + payload + "\n" + Join(LinesFrom(lines, lineEnd), "\n")
  }

  /** `saveData`: nothing is written without an active note. */
  function SaveData(activeContent: Option<string>, lineStart: nat, lineEnd: nat, payload: string): (r: Option<string>)
    ensures r.Some? <==> activeContent.Some?
    ensures r.Some? ==> r.value == SavedContent(activeContent.value, lineStart, lineEnd, payload)
  {
    match activeContent {
      case None => None
      case Some(content) => Some(SavedContent(content, lineStart, lineEnd, payload))
    }
  }

  /** Splitting the spliced text at newlines gives back its lines, when none of them holds a newline. */
  lemma SplicedLines(lines: seq<string>, lineStart: nat, lineEnd: nat, payload: string)
    requires |lines| >= 1
    requires forall k :: 0 <= k < |lines| ==> !Contains(lines[k], "\n")
    ensures '\n' !in payload ==>
              Split(Join(LinesThrough(lines, lineStart), "\n") + "\n" + payload + "\n" + Join(LinesFrom(lines, lineEnd), "\n"), "\n")
              == LinesThrough(lines, lineStart) + [payload] + (if lineEnd < |lines| then lines[lineEnd..] else [""])
  {
    if '\n' !in payload {
      var before := LinesThrough(lines, lineStart);
      var after := LinesFrom(lines, lineEnd);
      var after' := if |after| > 0 then after else [""];
      assert after' == if lineEnd < |lines| then lines[lineEnd..] else [""];
      assert Join(after', "\n") == Join(after, "\n");
      LinesHaveNoNewline(lines);
      JoinAround(before, payload, after', "\n");
      SplitJoin(before + [payload] + after', '\n');
    }
  }

  /** The pieces of a split at newlines hold no newline. */
  lemma LinesHaveNoNewline(lines: seq<string>)
    requires forall k :: 0 <= k < |lines| ==> !Contains(lines[k], "\n")
    ensures forall k :: 0 <= k < |lines| ==> '\n' !in lines[k]
  {
    forall k | 0 <= k < |lines| ensures '\n' !in lines[k] {
      NotContainsChar(lines[k], '\n');
    }
  }

  /** Joining with one part in the middle puts it between the two joins, each side one separator away. */
  lemma JoinAround(before: seq<string>, middle: string, after: seq<string>, sep: string)
    requires |before| >= 1 && |after| >= 1
    ensures Join(before + [middle] + after, sep) == Join(before, sep) + sep + middle + sep + Join(after, sep)
  {
    var tail := [middle] + after;
    JoinAppend([middle], after, sep);
    assert Join([middle], sep) == middle;
    JoinAppend(before, tail, sep);
    assert before + [middle] + after == before + tail;
  }

  /** The data `loadData` falls back to: `{entries: []}`. */
  const EMPTY_DATA: Value := Obj(map["entries" := Arr([])])

  /**
   * `loadData(json)`: an empty text, or one `JSON.parse` throws on (`parsed`
   * None), gives the fallback; otherwise the parsed value, whatever it is.
   */
  function LoadData(json: string, parsed: Option<Value>): (r: Value)
    ensures json == "" ==> r == EMPTY_DATA
    ensures json != "" && parsed.Some? ==> r == parsed.value
    ensures json != "" && parsed.None? ==> r == EMPTY_DATA
  {
    if json != "" && parsed.Some? then parsed.value else EMPTY_DATA
  }

  /** The fallback is the only value `loadData` returns from an empty or unparsable text. */
  lemma LoadFallsBack(json: string, parsed: Option<Value>)
    ensures LoadData(json, parsed) != EMPTY_DATA ==> json != "" && parsed.Some? && parsed.value != EMPTY_DATA
  {
  }
}
