// The rename of `src/components/Inputs/FileInput/index.tsx`: the new path a
// file cell asks the host to rename its note to, built from the old path and
// the entered name.

module FileInput {
  import opened Wrappers
  import opened Strings

  /** The text before the first line terminator: what `.` in a regular expression can run over. */
  function FirstLine(s: string): (r: string)
    ensures |r| <= |s| && s[..|r|] == r
    ensures forall k :: 0 <= k < |r| ==> !IsLineTerminator(r[k])
    ensures |r| < |s| ==> IsLineTerminator(s[|r|])
  {
    if |s| == 0 || IsLineTerminator(s[0]) then ""
    else [s[0]] + FirstLine(s[1..])
  }

  /** The index of the last '/' before `end`. */
  function LastSlash(s: string, end: nat): (r: Option<nat>)
    requires end <= |s|
    ensures r.Some? ==> r.value < end && s[r.value] == '/' && forall j :: r.value < j < end ==> s[j] != '/'
    ensures r.None? ==> forall j :: 0 <= j < end ==> s[j] != '/'
  {
    if end == 0 then None
    else if s[end - 1] == '/' then Some(end - 1)
    else LastSlash(s, end - 1)
  }

  /**
   * `/^(.*)\//.exec(path)?.[1]`: the greedy group runs to the last '/' of
   * the first line and stops before it; no '/' there means no match.
   */
  function DirCapture(path: string): (r: Option<string>)
    ensures r.Some? <==> '/' in FirstLine(path)
    ensures r.Some? ==> |r.value| < |FirstLine(path)| && path[..|r.value|] == r.value && path[|r.value|] == '/'
                        && '/' !in FirstLine(path)[|r.value| + 1..]
  {
    var line := FirstLine(path);
    match LastSlash(line, |line|) {
      case None => None
      case Some(i) => Some(line[..i])
    }
  }

  /**
   * The new path as written: the captured folder, the entered name in full
   * (`/.+?(?=\.)/` has no group 1, so `?? value` always applies) and ".md".
   * The '/' between folder and name is not put back.
   */
  function NewPath(path: string, value: string): (r: string)
    ensures |r| >= 3 && r[|r| - 3..] == ".md"
  {
    DirCapture(path).GetOr("") + value + ".md"
  }

  /** The new path as intended: the folder keeps its separating '/'. */
  function NewPathCorrected(path: string, value: string): (r: string)
    ensures |r| >= 3 && r[|r| - 3..] == ".md"
  {
    match DirCapture(path) {
      case None => value + ".md"
      case Some(dir) => dir + "/" + value + ".md"
    }
  }

  /** `updateFileName`: no rename when the note is not in the vault; otherwise a rename to the new path. */
  function UpdateFileName(fileExists: bool, path: string, value: string): (r: Option<string>)
    ensures r.Some? <==> fileExists
    ensures r.Some? ==> r.value == NewPath(path, value)
  {
    if fileExists then Some(NewPath(path, value)) else None
  }

  /** For a one-line path `dir/name` the capture is `dir`. */
  lemma DirOfNestedPath(dir: string, name: string)
    requires '/' !in name
    requires forall k :: 0 <= k < |dir + "/" + name| ==> !IsLineTerminator((dir + "/" + name)[k])
    ensures DirCapture(dir + "/" + name) == Some(dir)
  {
    var path := dir + "/" + name;
    assert FirstLine(path) == path;
    var i := LastSlash(path, |path|);
    assert path[|dir|] == '/';
    assert forall j :: |dir| < j < |path| ==> path[j] == name[j - |dir| - 1];
    assert i == Some(|dir|);
    assert path[..|dir|] == dir;
  }

  /** A note at the top level of the vault (no '/') is renamed to the entered name plus ".md". */
  lemma DirOfTopLevelPath(name: string)
    requires '/' !in name
    ensures DirCapture(name) == None
  {
    assert FirstLine(name) == name[..|FirstLine(name)|];
  }

  /** As written, renaming `dir/name` lands in `dir` + name, not in the folder `dir`. */
  lemma NewPathDropsSlash(dir: string, name: string, value: string)
    requires '/' !in name
    requires forall k :: 0 <= k < |dir + "/" + name| ==> !IsLineTerminator((dir + "/" + name)[k])
    ensures NewPath(dir + "/" + name, value) == dir + value + ".md"
  {
    DirOfNestedPath(dir, name);
  }

  /** Corrected, renaming `dir/name` keeps the note in the folder `dir`, and a top-level note stays at the top. */
  lemma NewPathCorrectedKeepsFolder(dir: string, name: string, value: string)
    requires '/' !in name
    requires forall k :: 0 <= k < |dir + "/" + name| ==> !IsLineTerminator((dir + "/" + name)[k])
    ensures NewPathCorrected(dir + "/" + name, value) == dir + "/" + value + ".md"
    ensures NewPathCorrected(name, value) == value + ".md" == NewPath(name, value)
  {
    DirOfNestedPath(dir, name);
    DirOfTopLevelPath(name);
  }

  /** "notes/a.md" is one line made of "notes", '/' and "a.md". */
  lemma ExamplePath(path: string)
    requires path == "notes/a.md"
    ensures path == "notes" + "/" + "a.md"
    ensures '/' !in "a.md"
    ensures forall k :: 0 <= k < |"notes" + "/" + "a.md"| ==> !IsLineTerminator(("notes" + "/" + "a.md")[k])
  {
    assert path == "notes" + "/" + "a.md";
  }

  /** As written, "notes/a.md" renamed to "b" becomes "notesb.md". */
  lemma RenameExample(path: string, value: string)
    requires path == "notes/a.md" && value == "b"
    ensures NewPath(path, value) == "notesb.md"
  {
    ExamplePath(path);
    NewPathDropsSlash("notes", "a.md", value);
    assert "notes" + value + ".md" == "notesb.md";
  }

  /** Corrected, "notes/a.md" renamed to "b" becomes "notes/b.md". */
  lemma RenameExampleCorrected(path: string, value: string)
    requires path == "notes/a.md" && value == "b"
    ensures NewPathCorrected(path, value) == "notes/b.md"
  {
    ExamplePath(path);
    NewPathCorrectedKeepsFolder("notes", "a.md", value);
    assert "notes" + "/" + value + ".md" == "notes/b.md";
  }
}
