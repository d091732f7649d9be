/**
 * String operations of JavaScript that the plugin relies on: `split` on a
 * literal separator, `join`, `includes`, `trim` and ASCII case mapping.
 * Strings are sequences of `char`; one `char` stands for one Unicode scalar
 * value, so text outside the Basic Multilingual Plane has a shorter length
 * here than its UTF-16 `length`, and lone surrogates are not strings.
 */
module Strings {
  import opened Wrappers

  /** `sep` occurs in `s` starting at index `j`. */
  predicate OccursAt(s: string, sep: string, j: nat) {
    j + |sep| <= |s| && s[j..j + |sep|] == sep
  }

  /** JavaScript's `s.includes(q)`; the empty string is included everywhere. */
  predicate Contains(s: string, q: string) {
    exists j: nat :: j <= |s| && OccursAt(s, q, j)
  }

  /** The first index at or after `from` where `sep` occurs, as `s.indexOf(sep, from)`. */
  function IndexFrom(s: string, sep: string, from: nat): (r: Option<nat>)
    requires |sep| > 0
    ensures r.Some? ==> from <= r.value && OccursAt(s, sep, r.value)
    ensures r.Some? ==> forall j: nat :: from <= j < r.value ==> !OccursAt(s, sep, j)
    ensures r.None? ==> forall j: nat :: from <= j ==> !OccursAt(s, sep, j)
    decreases |s| - from
  {
    if from + |sep| > |s| then None
    else if OccursAt(s, sep, from) then Some(from)
    else IndexFrom(s, sep, from + 1)
  }

  /** An occurrence at `i` with none between `from` and `i` is the one `IndexFrom` finds. */
  lemma {:induction false} IndexFromFirst(s: string, sep: string, from: nat, i: nat)
    requires |sep| > 0 && from <= i && OccursAt(s, sep, i)
    requires forall j: nat :: from <= j < i ==> !OccursAt(s, sep, j)
    ensures IndexFrom(s, sep, from) == Some(i)
    decreases i - from
  {
    if from < i {
      IndexFromFirst(s, sep, from + 1, i);
    }
  }

  /** A string that does not contain `sep` has no occurrence for `IndexFrom` to find. */
  lemma NotContainedNotFound(s: string, sep: string)
    requires |sep| > 0 && !Contains(s, sep)
    ensures IndexFrom(s, sep, 0) == None
  {
    forall j: nat ensures OccursAt(s, sep, j) ==> j <= |s| { }
  }

  /** JavaScript's `s.split(sep)` for a non-empty literal separator: cut at every leftmost, non-overlapping occurrence. */
  function Split(s: string, sep: string): (parts: seq<string>)
    requires |sep| > 0
    ensures |parts| >= 1
    ensures forall k :: 0 <= k < |parts| ==> !Contains(parts[k], sep)
    decreases |s|
  {
    match IndexFrom(s, sep, 0)
    case None => [s]
    case Some(i) =>
      PrefixBeforeFirst(s, sep, i);
      [s[..i]] + Split(s[i + |sep|..], sep)
  }

  /** The text before the first occurrence of `sep` does not contain it. */
  lemma PrefixBeforeFirst(s: string, sep: string, i: nat)
    requires |sep| > 0 && i <= |s|
    requires forall j: nat :: j < i ==> !OccursAt(s, sep, j)
    ensures !Contains(s[..i], sep)
  {
    var head := s[..i];
    forall j: nat | j <= |head| ensures !OccursAt(head, sep, j) {
      if j + |sep| <= |head| {
        assert s[j..j + |sep|] == head[j..j + |sep|];
        assert !OccursAt(s, sep, j);
      }
    }
  }

  /** JavaScript's `parts.join(sep)`. */
  function Join(parts: seq<string>, sep: string): string {
    if |parts| == 0 then ""
    else if |parts| == 1 then parts[0]
    else parts[0] + sep + Join(parts[1..], sep)
  }

  /** Joining the pieces of a split with the same separator gives back the string. */
  lemma {:induction false} JoinSplit(s: string, sep: string)
    requires |sep| > 0
    ensures Join(Split(s, sep), sep) == s
    decreases |s|
  {
    match IndexFrom(s, sep, 0)
    case None =>
      assert Split(s, sep) == [s];
    case Some(i) =>
      var rest := s[i + |sep|..];
      var tail := Split(rest, sep);
      assert Split(s, sep) == [s[..i]] + tail;
      JoinSplit(rest, sep);
      assert Join([s[..i]] + tail, sep) == s[..i] + sep + Join(tail, sep) by {
        assert ([s[..i]] + tail)[0] == s[..i];
        assert ([s[..i]] + tail)[1..] == tail;
      }
      assert s == s[..i] + sep + rest by {
        assert s[i..i + |sep|] == sep;
        assert s == s[..i] + s[i..i + |sep|] + s[i + |sep|..];
      }
  }

  lemma NoCharNoOccurrence(p: string, c: char)
    requires c !in p
    ensures forall j: nat :: !OccursAt(p, [c], j)
  {
    forall j: nat ensures !OccursAt(p, [c], j) {
      if j + 1 <= |p| {
        assert p[j..j + 1] == [p[j]];
      }
    }
  }

  lemma IndexOfJoinedChar(p: string, c: char, rest: string)
    requires c !in p
    ensures IndexFrom(p + [c] + rest, [c], 0) == Some(|p|)
  {
    var s := p + [c] + rest;
    assert OccursAt(s, [c], |p|) by { assert s[|p|..|p| + 1] == [c]; }
    var k: nat := 0;
    while k < |p|
      invariant k <= |p|
      invariant IndexFrom(s, [c], 0) == IndexFrom(s, [c], k)
    {
      assert !OccursAt(s, [c], k) by { assert s[k] == p[k]; }
      k := k + 1;
    }
  }

  /**
   * The first piece of a split at one character is `w`, which does not hold
   * that character, exactly when the string is `w` or starts with `w` and the character.
   */
  lemma FirstPieceIs(s: string, c: char, w: string)
    requires c !in w
    ensures Split(s, [c])[0] == w <==> s == w || w + [c] <= s
  {
    if s == w {
      NoCharNoOccurrence(s, c);
      assert IndexFrom(s, [c], 0) == None;
    } else if w + [c] <= s {
      var rest := s[|w| + 1..];
      assert s == w + [c] + rest;
      IndexOfJoinedChar(w, c, rest);
      assert s[..|w|] == w;
    } else {
      match IndexFrom(s, [c], 0)
      case None =>
        assert Split(s, [c])[0] == s;
      case Some(i) =>
        assert Split(s, [c])[0] == s[..i];
    }
  }

  /** For a one-character separator absent from every part, splitting the join recovers the parts. */
  lemma {:induction false} SplitJoin(parts: seq<string>, c: char)
    requires |parts| >= 1
    requires forall k :: 0 <= k < |parts| ==> c !in parts[k]
    ensures Split(Join(parts, [c]), [c]) == parts
    decreases |parts|
  {
    if |parts| == 1 {
      NoCharNoOccurrence(parts[0], c);
      assert IndexFrom(parts[0], [c], 0) == None;
    } else {
      var rest := Join(parts[1..], [c]);
      var s := parts[0] + [c] + rest;
      assert Join(parts, [c]) == s;
      IndexOfJoinedChar(parts[0], c, rest);
      assert s[..|parts[0]|] == parts[0];
      assert s[|parts[0]| + 1..] == rest;
      SplitJoin(parts[1..], c);
    }
  }

  /** A string that does not include the one-character string `[c]` has no `c` in it. */
  lemma NotContainsChar(p: string, c: char)
    requires !Contains(p, [c])
    ensures c !in p
  {
    forall k | 0 <= k < |p| ensures p[k] != c {
      if p[k] == c {
        assert p[k..k + 1] == [c];
        assert OccursAt(p, [c], k);
      }
    }
  }

  /** Joining two non-empty lists of parts: the two joins with one separator between them. */
  lemma {:induction false} JoinAppend(a: seq<string>, b: seq<string>, sep: string)
    requires |a| >= 1 && |b| >= 1
    ensures Join(a + b, sep) == Join(a, sep) + sep + Join(b, sep)
    decreases |a|
  {
    if |a| == 1 {
      assert (a + b)[1..] == b;
    } else {
      assert (a + b)[1..] == a[1..] + b;
      JoinAppend(a[1..], b, sep);
    }
  }

  /** The line terminators of ECMAScript: LF, CR, LS, PS. */
  predicate IsLineTerminator(c: char) {
    c == '\n' || c == '\r' || c == '\U{2028}' || c == '\U{2029}'
  }

  /** The class `\s` of ECMAScript regular expressions: white space and line terminators. */
  predicate IsJsWhitespace(c: char) {
    c == '\t' || c == '\U{000B}' || c == '\U{000C}' || c == ' ' || c == '\U{00A0}' || c == '\U{FEFF}'
    || c == '\U{1680}' || ('\U{2000}' <= c <= '\U{200A}') || c == '\U{202F}' || c == '\U{205F}' || c == '\U{3000}'
    || IsLineTerminator(c)
  }

  /** JavaScript's `s.trim()`. */
  function Trim(s: string): (r: string)
    ensures |r| <= |s|
    ensures r != [] ==> !IsJsWhitespace(r[0]) && !IsJsWhitespace(r[|r| - 1])
  {
    TrimEnd(TrimStart(s))
  }

  function TrimStart(s: string): (r: string)
    ensures |r| <= |s|
    ensures r != [] ==> !IsJsWhitespace(r[0]) && r[|r| - 1] == s[|s| - 1]
  {
    if s != [] && IsJsWhitespace(s[0]) then TrimStart(s[1..]) else s
  }

  function TrimEnd(s: string): (r: string)
    ensures |r| <= |s|
    ensures r != [] ==> !IsJsWhitespace(r[|r| - 1]) && r[0] == s[0]
  {
    if s != [] && IsJsWhitespace(s[|s| - 1]) then TrimEnd(s[..|s| - 1]) else s
  }

  /** A string that neither starts nor ends with white space is its own trim. */
  lemma TrimKeeps(s: string)
    requires s != [] && !IsJsWhitespace(s[0]) && !IsJsWhitespace(s[|s| - 1])
    ensures Trim(s) == s
  {
    assert TrimStart(s) == s;
    assert TrimEnd(s) == s;
  }

  predicate IsAsciiUpper(c: char) { 'A' <= c <= 'Z' }

  predicate IsAsciiLower(c: char) { 'a' <= c <= 'z' }

  function LowerChar(c: char): char {
    if IsAsciiUpper(c) then (c as int + 32) as char else c
  }

  function UpperChar(c: char): char {
    if IsAsciiLower(c) then (c as int - 32) as char else c
  }

  /** `s.toLowerCase()`, restricted to the ASCII letters. */
  function ToLower(s: string): (r: string)
    ensures |r| == |s|
    ensures forall k :: 0 <= k < |s| ==> r[k] == LowerChar(s[k])
  {
    seq(|s|, k requires 0 <= k < |s| => LowerChar(s[k]))
  }

  /** Equal up to the case of ASCII letters, character by character. */
  predicate EqualsIgnoringCase(s: string, t: string) {
    |s| == |t| && forall k :: 0 <= k < |s| ==> LowerChar(s[k]) == LowerChar(t[k])
  }

  /** Lower-casing `s` gives the lower-case `t` exactly when the two agree up to case. */
  lemma LowerEqualsIff(s: string, t: string)
    requires ToLower(t) == t
    ensures ToLower(s) == t <==> EqualsIgnoringCase(s, t)
  {
    if EqualsIgnoringCase(s, t) {
      assert forall k :: 0 <= k < |s| ==> ToLower(s)[k] == ToLower(t)[k];
    }
  }

  /** A string equal up to case to a lower-case one without spaces holds no space either. */
  lemma NoSpaceIgnoringCase(w: string, t: string)
    requires ToLower(t) == t && ' ' !in t && EqualsIgnoringCase(w, t)
    ensures ' ' !in w
  {
    forall k | 0 <= k < |w| ensures w[k] != ' ' {
      assert LowerChar(t[k]) == ToLower(t)[k] == t[k];
    }
  }

  /**
   * The first word (the text before the first space), lower-cased, is the
   * lower-case word `t` exactly when the string starts with `t` in any case,
   * followed by a space or the end.
   */
  lemma FirstWordIgnoringCase(s: string, t: string)
    requires ToLower(t) == t && ' ' !in t
    ensures ToLower(Split(s, " ")[0]) == t <==>
              |s| >= |t| && EqualsIgnoringCase(s[..|t|], t) && (|s| == |t| || s[|t|] == ' ')
  {
    if ToLower(Split(s, " ")[0]) == t {
      FirstWordStartsString(s, t);
    }
    if |s| >= |t| && EqualsIgnoringCase(s[..|t|], t) && (|s| == |t| || s[|t|] == ' ') {
      StringStartIsFirstWord(s, t);
    }
  }

  lemma FirstWordStartsString(s: string, t: string)
    requires ToLower(t) == t && ' ' !in t && ToLower(Split(s, " ")[0]) == t
    ensures |s| >= |t| && EqualsIgnoringCase(s[..|t|], t) && (|s| == |t| || s[|t|] == ' ')
  {
    FirstPieceShape(s, ' ');
    LowerWordStartsString(s, Split(s, " ")[0], t);
  }

  /** The first piece of a split at `c` holds no `c`, and is the whole string or is followed by `c`. */
  lemma FirstPieceShape(s: string, c: char)
    ensures var first := Split(s, [c])[0];
            c !in first && (s == first || first + [c] <= s)
  {
    match IndexFrom(s, [c], 0)
    case None =>
      assert Split(s, [c])[0] == s;
      forall k | 0 <= k < |s| ensures s[k] != c {
        assert s[k..k + 1] == [s[k]];
        assert !OccursAt(s, [c], k);
      }
    case Some(i) =>
      assert Split(s, [c])[0] == s[..i];
      assert s[i..i + 1] == [c];
      assert s[..i + 1] == s[..i] + [c];
      forall k | 0 <= k < i ensures s[k] != c {
        assert s[k..k + 1] == [s[k]];
        assert !OccursAt(s, [c], k);
      }
  }

  lemma LowerWordStartsString(s: string, w: string, t: string)
    requires ToLower(t) == t && ToLower(w) == t && (s == w || w + " " <= s)
    ensures |s| >= |t| && EqualsIgnoringCase(s[..|t|], t) && (|s| == |t| || s[|t|] == ' ')
  {
    LowerEqualsIff(w, t);
    WordThenSpace(s, w);
  }

  /** A string that is `w` or starts with `w` and a space has `w` as its prefix, followed by the end or a space. */
  lemma WordThenSpace(s: string, w: string)
    requires s == w || w + " " <= s
    ensures |s| >= |w| && s[..|w|] == w && (|s| == |w| || s[|w|] == ' ')
  {
    if s != w {
      assert s[..|w|] == (w + " ")[..|w|];
      assert s[|w|] == (w + " ")[|w|];
    }
  }

  lemma StringStartIsFirstWord(s: string, t: string)
    requires ToLower(t) == t && ' ' !in t
    requires |s| >= |t| && EqualsIgnoringCase(s[..|t|], t) && (|s| == |t| || s[|t|] == ' ')
    ensures ToLower(Split(s, " ")[0]) == t
  {
    StartIsLowerWord(s, t);
    FirstPieceIs(s, ' ', s[..|t|]);
  }

  lemma StartIsLowerWord(s: string, t: string)
    requires ToLower(t) == t && ' ' !in t
    requires |s| >= |t| && EqualsIgnoringCase(s[..|t|], t) && (|s| == |t| || s[|t|] == ' ')
    ensures var w := s[..|t|]; ' ' !in w && ToLower(w) == t && (s == w || w + " " <= s)
  {
    var w := s[..|t|];
    NoSpaceIgnoringCase(w, t);
    LowerEqualsIff(w, t);
    if |s| == |t| {
      assert s == w;
    } else {
      assert s[..|t| + 1] == w + " ";
    }
  }

  /** `s.toUpperCase()`, restricted to the ASCII letters. */
  function ToUpper(s: string): (r: string)
    ensures |r| == |s|
    ensures forall k :: 0 <= k < |s| ==> r[k] == UpperChar(s[k])
  {
    seq(|s|, k requires 0 <= k < |s| => UpperChar(s[k]))
  }
}
