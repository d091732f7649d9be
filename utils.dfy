/**
 * The pure helpers of `src/lib/utils.ts`: property-type fallback, alignment
 * classes, tag test, object backfill and prune, dot-path assignment,
 * bijective base-26 column letters, array move and compare, and the rewrite
 * of an inline field's line together with the branch logic that chooses
 * between an inline rewrite and a frontmatter write.
 */
module Utils {
  import opened Wrappers
  import opened Strings
  import opened JsValues

  // ---------------------------------------------------------------------------
  // Property types and alignment classes

  /**
   * `getPropertyType`: the type registered for the property in the host's
   * type registry (`registry`; a registered empty string counts as absent),
   * otherwise "object" for a dotted name, otherwise "inline".
   */
  function GetPropertyType(registry: map<string, string>, propertyName: string): (r: string)
    ensures r != ""
    ensures propertyName in registry && registry[propertyName] != "" ==> r == registry[propertyName]
    ensures !(propertyName in registry && registry[propertyName] != "") ==>
              r == (if '.' in propertyName then "object" else "inline")
  {
    if propertyName in registry && registry[propertyName] != "" then registry[propertyName]
    else if '.' in propertyName then "object"
    else "inline"
  }

  const JUSTIFY_START := "justify-start"
  const JUSTIFY_CENTER := "justify-center"
  const JUSTIFY_END := "justify-end"
  const ITEMS_START := "items-start"
  const ITEMS_CENTER := "items-center"
  const ITEMS_END := "items-end"

  /** `getJustifyContentClass`: start unless the alignment is exactly "center" or "end". */
  function JustifyContentClass(horizontalAlignment: string): (r: string)
    ensures r in {JUSTIFY_START, JUSTIFY_CENTER, JUSTIFY_END}
    ensures r == JUSTIFY_CENTER <==> horizontalAlignment == "center"
    ensures r == JUSTIFY_END <==> horizontalAlignment == "end"
  {
    var justifyContent := JUSTIFY_START;
    var justifyContent := if horizontalAlignment == "center" then JUSTIFY_CENTER else justifyContent;
    if horizontalAlignment == "end" then JUSTIFY_END else justifyContent
  }

  /** `getAlignItemsClass`: start unless the alignment is exactly "center" or "end". */
  function AlignItemsClass(verticalAlignment: string): (r: string)
    ensures r in {ITEMS_START, ITEMS_CENTER, ITEMS_END}
    ensures r == ITEMS_CENTER <==> verticalAlignment == "center"
    ensures r == ITEMS_END <==> verticalAlignment == "end"
  {
    var alignItems := ITEMS_START;
    var alignItems := if verticalAlignment == "center" then ITEMS_CENTER else alignItems;
    if verticalAlignment == "end" then ITEMS_END else alignItems
  }

  /** The three horizontal alignments of the settings schema get three distinct classes. */
  lemma JustifyDistinguishesSchemaValues(a: string, b: string)
    requires a in {"start", "center", "end"} && b in {"start", "center", "end"}
    requires JustifyContentClass(a) == JustifyContentClass(b)
    ensures a == b
  {
  }

  /**
   * The settings schema's vertical alignments are "top", "middle" and
   * "bottom", none of which `getAlignItemsClass` recognises: all three map to
   * the start class.
   */
  lemma AlignItemsIgnoresSchemaValues(v: string)
    requires v in {"top", "middle", "bottom"}
    ensures AlignItemsClass(v) == ITEMS_START
  {
  }

  /**
   * A match of `^#[^\s].*` ending before index `n`: a `#` at the start, one
   * character outside `\s`, then characters other than line terminators (`.`).
   */
  predicate TagMatchEnds(str: string, n: nat) {
    2 <= n <= |str| && str[0] == '#' && !IsJsWhitespace(str[1])
    && forall k :: 2 <= k < n ==> !IsLineTerminator(str[k])
  }

  /** `RegExp.test` of the tag pattern: some prefix of the string matches it. */
  predicate TagPatternMatches(str: string) {
    exists n: nat :: n <= |str| && TagMatchEnds(str, n)
  }

  /**
   * `checkIsTag`: a `#` followed by a character outside `\s`; since `.*` may
   * match nothing, this is exactly when the tag pattern matches.
   */
  function CheckIsTag(str: string): (r: bool)
    ensures r <==> TagPatternMatches(str)
  {
    if |str| >= 2 && str[0] == '#' && !IsJsWhitespace(str[1]) then
      assert TagMatchEnds(str, 2);
      true
    else
      false
  }

  /** The documented examples of `checkIsTag`. */
  lemma CheckIsTagExamples()
    ensures CheckIsTag("#hello")
    ensures !CheckIsTag("world") && !CheckIsTag("# wrong")
    ensures !CheckIsTag("#")
  {
  }

  /** `simpleArrayCompare`: same length and equal at every index, that is, equal sequences. */
  function SimpleArrayCompare(arr1: seq<string>, arr2: seq<string>): (r: bool)
    ensures r <==> arr1 == arr2
  {
    |arr1| == |arr2| && forall i :: 0 <= i < |arr1| ==> arr1[i] == arr2[i]
  }

  // ---------------------------------------------------------------------------
  // Bijective base-26 column letters

  function Pow26(e: nat): (r: nat)
    ensures r >= 1
  {
    if e == 0 then 1 else 26 * Pow26(e - 1)
  }

  /** The value a character contributes: its code minus 96, so 'a' is 1 and 'z' is 26. */
  function CharValue(c: char): int {
    c as int - 96
  }

  /** The `reduce` of `base26LettersToNumber` from index `i` with accumulator `acc`. */
  function LettersFrom(chars: string, i: nat, acc: int): int
    requires i <= |chars|
    decreases |chars| - i
  {
    if i == |chars| then acc
    else LettersFrom(chars, i + 1, acc + CharValue(chars[i]) * Pow26(|chars| - i - 1))
  }

  /**
   * `base26LettersToNumber`: lower-case the string, then add up each
   * character's value times 26 to the power of the number of characters after it.
   */
  function Base26LettersToNumber(str: string): (r: int)
    ensures r == Horner(ToLower(str))
  {
    LettersFromIsTailSum(ToLower(str), 0, 0);
    TailSumIsHorner(ToLower(str));
    LettersFrom(ToLower(str), 0, 0)
  }

  /** A column label: a string of upper-case letters A to Z. */
  predicate IsColumnLabel(s: string) {
    forall k :: 0 <= k < |s| ==> IsAsciiUpper(s[k])
  }

  predicate AllLowerLetters(s: string) {
    forall k :: 0 <= k < |s| ==> IsAsciiLower(s[k])
  }

  /** The Horner form of the same sum, read from the left. */
  function Horner(s: string): int {
    if s == [] then 0 else Horner(s[..|s| - 1]) * 26 + CharValue(s[|s| - 1])
  }

  function TailSum(s: string, i: nat): int
    requires i <= |s|
    decreases |s| - i
  {
    if i == |s| then 0 else CharValue(s[i]) * Pow26(|s| - i - 1) + TailSum(s, i + 1)
  }

  lemma {:induction false} LettersFromIsTailSum(s: string, i: nat, acc: int)
    requires i <= |s|
    ensures LettersFrom(s, i, acc) == acc + TailSum(s, i)
    decreases |s| - i
  {
    if i < |s| {
      LettersFromIsTailSum(s, i + 1, acc + CharValue(s[i]) * Pow26(|s| - i - 1));
    }
  }

  lemma {:induction false} TailSumAppend(p: string, c: char, i: nat)
    requires i <= |p|
    ensures TailSum(p + [c], i) == 26 * TailSum(p, i) + CharValue(c)
    decreases |p| - i
  {
    var s := p + [c];
    if i == |p| {
      assert TailSum(s, i + 1) == 0;
    } else {
      TailSumAppend(p, c, i + 1);
      assert s[i] == p[i];
      var v, q := CharValue(p[i]), Pow26(|p| - i - 1);
      assert Pow26(|s| - i - 1) == 26 * q;
      calc {
        TailSum(s, i);
        v * (26 * q) + TailSum(s, i + 1);
        v * (26 * q) + 26 * TailSum(p, i + 1) + CharValue(c);
        { assert v * (26 * q) == 26 * (v * q); }
        26 * (v * q + TailSum(p, i + 1)) + CharValue(c);
      }
    }
  }

  lemma {:induction false} TailSumIsHorner(s: string)
    ensures TailSum(s, 0) == Horner(s)
    decreases |s|
  {
    if s != [] {
      var p, c := s[..|s| - 1], s[|s| - 1];
      assert s == p + [c];
      TailSumIsHorner(p);
      TailSumAppend(p, c, 0);
    }
  }

  lemma {:induction false} HornerPrepend(c: char, t: string)
    ensures Horner([c] + t) == CharValue(c) * Pow26(|t|) + Horner(t)
    decreases |t|
  {
    if t != [] {
      var p, d := t[..|t| - 1], t[|t| - 1];
      assert ([c] + t)[..|t|] == [c] + p;
      HornerPrepend(c, p);
      var v, q := CharValue(c), Pow26(|p|);
      assert Pow26(|t|) == 26 * q;
      assert v * (26 * q) == (v * q) * 26;
    }
  }

  lemma {:induction false} HornerOfLetters(s: string)
    requires AllLowerLetters(s)
    ensures s == [] ==> Horner(s) == 0
    ensures s != [] ==> Horner(s) >= 1
    decreases |s|
  {
    if s != [] {
      HornerOfLetters(s[..|s| - 1]);
    }
  }

  /** Equal values of two non-empty letter strings force equal last letters and equal values of what precedes them. */
  lemma LastLetterStep(s: string, t: string)
    requires s != [] && t != [] && AllLowerLetters(s) && AllLowerLetters(t)
    requires Horner(s) == Horner(t)
    ensures s[|s| - 1] == t[|t| - 1]
    ensures Horner(s[..|s| - 1]) == Horner(t[..|t| - 1])
  {
    var a, b := Horner(s[..|s| - 1]), Horner(t[..|t| - 1]);
    var vs, vt := CharValue(s[|s| - 1]), CharValue(t[|t| - 1]);
    assert 1 <= vs <= 26 && 1 <= vt <= 26;
    assert a * 26 + vs == b * 26 + vt;
  }

  /** Distinct strings of letters have distinct values: the numbering is bijective. */
  lemma {:induction false} HornerInjective(s: string, t: string)
    requires AllLowerLetters(s) && AllLowerLetters(t)
    requires Horner(s) == Horner(t)
    ensures s == t
    decreases |s|
  {
    HornerOfLetters(s);
    HornerOfLetters(t);
    if s != [] && t != [] {
      var ps, pt := s[..|s| - 1], t[..|t| - 1];
      LastLetterStep(s, t);
      assert AllLowerLetters(ps) && AllLowerLetters(pt);
      HornerInjective(ps, pt);
      assert s == ps + [s[|s| - 1]] && t == pt + [t[|t| - 1]];
    }
  }

  lemma LowerOfLabel(s: string)
    requires IsColumnLabel(s)
    ensures AllLowerLetters(ToLower(s))
  {
  }

  /** A column label is determined by its number: two labels with the same number are the same label. */
  lemma ColumnLabelsInjective(s: string, t: string)
    requires IsColumnLabel(s) && IsColumnLabel(t)
    requires Base26LettersToNumber(s) == Base26LettersToNumber(t)
    ensures s == t
  {
    LowerOfLabel(s);
    LowerOfLabel(t);
    HornerInjective(ToLower(s), ToLower(t));
    assert forall k :: 0 <= k < |s| ==> s[k] == UpperChar(ToLower(s)[k]);
  }

  /** The documented examples of `base26LettersToNumber`, and its case-insensitivity. */
  lemma Base26Examples()
    ensures Base26LettersToNumber("A") == 1 && Base26LettersToNumber("B") == 2
    ensures Base26LettersToNumber("C") == 3 && Base26LettersToNumber("Z") == 26
    ensures Base26LettersToNumber("AA") == 27 && Base26LettersToNumber("AB") == 28
    ensures Base26LettersToNumber("BY") == 77 && Base26LettersToNumber("by") == 77
  {
    assert ToLower("AA") == "aa" && ToLower("AB") == "ab" && ToLower("BY") == "by" && ToLower("by") == "by";
    assert "aa"[..1] == "a" && "ab"[..1] == "a" && "by"[..1] == "b";
  }

  lemma PrependLetter(result: string, c: char)
    requires IsColumnLabel(result) && IsAsciiLower(c)
    ensures IsColumnLabel(ToUpper([c] + result))
    ensures ToLower(ToUpper([c] + result)) == [c] + ToLower(result)
  {
  }

  lemma DivideStep(num: int, n: int, remainder: int, q: nat, h: int)
    requires n > 0 && remainder == (if n % 26 == 0 then 26 else n % 26)
    requires num == n * q + h
    ensures num == ((n - remainder) / 26) * (26 * q) + (remainder * q + h)
  {
    var m := (n - remainder) / 26;
    assert m * 26 == n - remainder;
    assert m * (26 * q) == (m * 26) * q;
  }

  lemma PrependDigitStep(num: int, n: int, remainder: int, result: string, c: char)
    requires n > 0 && remainder == (if n % 26 == 0 then 26 else n % 26)
    requires c == (96 + remainder) as char
    requires IsColumnLabel(result)
    requires num == n * Pow26(|result|) + Horner(ToLower(result))
    ensures IsColumnLabel(ToUpper([c] + result))
    ensures num == ((n - remainder) / 26) * Pow26(|result| + 1) + Horner(ToLower(ToUpper([c] + result)))
  {
    var low, q := ToLower(result), Pow26(|result|);
    PrependLetter(result, c);
    HornerPrepend(c, low);
    assert CharValue(c) == remainder;
    assert Horner([c] + low) == remainder * q + Horner(low);
    assert Pow26(|result| + 1) == 26 * q;
    DivideStep(num, n, remainder, q, Horner(low));
  }

  /** One bijective digit: between 1 and 26, at most `n`, and what is left is a smaller multiple of 26 apart. */
  lemma DigitBounds(n: int, remainder: int)
    requires n > 0 && remainder == (if n % 26 == 0 then 26 else n % 26)
    ensures 1 <= remainder <= 26 && remainder <= n
    ensures 0 <= (n - remainder) / 26 < n
  {
  }

  /**
   * `numberToBase26Letters`: repeatedly take the bijective digit
   * (`num % 26 || 26`), prepend its upper-case letter, and divide.
   */
  method NumberToBase26Letters(num: int) returns (result: string)
    ensures num <= 0 ==> result == ""
    ensures num >= 1 ==> |result| >= 1 && IsColumnLabel(result)
    ensures num >= 1 ==> Base26LettersToNumber(result) == num
  {
    var n := num;
    result := "";
    while n > 0
      invariant num <= 0 ==> n == num && result == ""
      invariant num > 0 ==> 0 <= n && IsColumnLabel(result)
      invariant num > 0 ==> num == n * Pow26(|result|) + Horner(ToLower(result))
      invariant num > 0 && result == "" ==> n == num
      decreases if n > 0 then n else 0
    {
      var remainder := if n % 26 == 0 then 26 else n % 26;
      DigitBounds(n, remainder);
      var c := (96 + remainder) as char;
      PrependDigitStep(num, n, remainder, result, c);
      assert |ToUpper([c] + result)| == |result| + 1;
      result := ToUpper([c] + result);
      n := (n - remainder) / 26;
    }
  }

  /** The documented examples of `numberToBase26Letters`, from its contract and the injectivity of labels. */
  method NumberToBase26LettersExamples()
  {
    var label77 := NumberToBase26Letters(77);
    Base26Examples();
    ColumnLabelsInjective(label77, "BY");
    assert label77 == "BY";
    var aa := NumberToBase26Letters(27);
    ColumnLabelsInjective(aa, "AA");
    assert aa == "AA";
    var none := NumberToBase26Letters(0);
    assert none == "";
  }

  // ---------------------------------------------------------------------------
  // Object backfill and prune

  /** The object `addNewKeyValues` builds: `oldObj` with every key of `newObj` it lacks added. */
  function Backfilled<V>(oldObj: map<string, V>, newObj: map<string, V>): (r: map<string, V>)
    ensures r.Keys == oldObj.Keys + newObj.Keys
    ensures forall k :: k in oldObj ==> r[k] == oldObj[k]
    ensures forall k :: k in newObj && k !in oldObj ==> r[k] == newObj[k]
  {
    map k | k in oldObj.Keys + newObj.Keys :: if k in oldObj then oldObj[k] else newObj[k]
  }

  /**
   * `addNewKeyValues`: copy `oldObj`, then for each key of `newObj` that the
   * copy does not have, set it to `newObj`'s value.
   */
  method AddNewKeyValues<V>(oldObj: map<string, V>, newObj: map<string, V>) returns (result: map<string, V>)
    ensures result == Backfilled(oldObj, newObj)
  {
    result := oldObj;
    var pending := newObj.Keys;
    while pending != {}
      invariant pending <= newObj.Keys
      invariant result.Keys == oldObj.Keys + (newObj.Keys - pending)
      invariant forall k :: k in oldObj ==> result[k] == oldObj[k]
      invariant forall k :: k in result && k !in oldObj ==> result[k] == newObj[k]
      decreases pending
    {
      var key :| key in pending;
      if key !in result {
        result := result[key := newObj[key]];
      }
      pending := pending - {key};
    }
  }

  /** The documented example: `{foo: 'bar'}` backfilled from `{foo: 'bleh', fizz: 'buzz'}` is `{foo: 'bar', fizz: 'buzz'}`. */
  lemma BackfilledExample()
    ensures Backfilled(map["foo" := "bar"], map["foo" := "bleh", "fizz" := "buzz"])
         == map["foo" := "bar", "fizz" := "buzz"]
  {
    var r := Backfilled(map["foo" := "bar"], map["foo" := "bleh", "fizz" := "buzz"]);
    assert r.Keys == {"foo", "fizz"};
  }

  /** The object `removeKeys` builds: the entries of `oldObj` whose key `newObj` also has. */
  function Pruned<V>(oldObj: map<string, V>, newObj: map<string, V>): (r: map<string, V>)
    ensures r.Keys == oldObj.Keys * newObj.Keys
    ensures forall k :: k in r ==> r[k] == oldObj[k]
  {
    map k | k in oldObj && k in newObj :: oldObj[k]
  }

  /** `removeKeys`: copy `oldObj`, then delete each of its keys that `newObj` lacks. */
  method RemoveKeys<V>(oldObj: map<string, V>, newObj: map<string, V>) returns (result: map<string, V>)
    ensures result == Pruned(oldObj, newObj)
  {
    result := oldObj;
    var pending := oldObj.Keys;
    while pending != {}
      invariant pending <= oldObj.Keys
      invariant result.Keys == (oldObj.Keys * newObj.Keys) + pending
      invariant forall k :: k in result ==> result[k] == oldObj[k]
      decreases pending
    {
      var key :| key in pending;
      if key !in newObj {
        result := result - {key};
      }
      pending := pending - {key};
    }
  }

  /**
   * Backfilling from a template and then pruning to it yields exactly the
   * template's keys, keeping the old value wherever there was one: a saved
   * object migrated to a new set of keys.
   */
  lemma BackfillThenPrune<V>(saved: map<string, V>, template: map<string, V>)
    ensures Pruned(Backfilled(saved, template), template).Keys == template.Keys
    ensures forall k :: k in template ==>
              Pruned(Backfilled(saved, template), template)[k] == (if k in saved then saved[k] else template[k])
  {
  }

  // ---------------------------------------------------------------------------
  // Dot-path assignment

  datatype PathError = NotAnObject(key: string)

  /**
   * The walk of `iterateStringKeys` over the keys: every key but the last
   * replaces a missing or falsy entry by a fresh `{}` and descends; the last
   * key receives `val`. Descending into a truthy value that is not an object
   * and then assigning to it is a TypeError in strict mode, the failure case.
   */
  function SetAtPath(obj: map<string, Value>, keys: seq<string>, val: Value): (r: Result<map<string, Value>, PathError>)
    requires |keys| >= 1
    ensures r.Success? ==> r.value.Keys == obj.Keys + {keys[0]}
    ensures r.Success? ==> forall k :: k in obj && k != keys[0] ==> r.value[k] == obj[k]
    ensures r.Success? && |keys| == 1 ==> r.value[keys[0]] == val
    ensures r.Success? && |keys| > 1 ==>
              Child(obj, keys[0]).Obj? && SetAtPath(Child(obj, keys[0]).fields, keys[1..], val).Success?
              && r.value[keys[0]] == Obj(SetAtPath(Child(obj, keys[0]).fields, keys[1..], val).value)
    decreases |keys|
  {
    var key := keys[0];
    if |keys| == 1 then Success(obj[key := val])
    else
      var child := Child(obj, key);
      if !child.Obj? then Failure(NotAnObject(key))
      else
        match SetAtPath(child.fields, keys[1..], val)
        case Success(fields) => Success(obj[key := Obj(fields)])
        case Failure(e) => Failure(e)
  }

  /** `current[key] || {}`: the entry under `key`, or a fresh `{}` when it is missing or falsy. */
  function Child(obj: map<string, Value>, key: string): (r: Value)
    ensures key in obj && Truthy(obj[key]) ==> r == obj[key]
    ensures key !in obj || !Truthy(obj[key]) ==> r == Obj(map[])
  {
    if key in obj && Truthy(obj[key]) then obj[key] else Obj(map[])
  }

  /** Every intermediate entry along `keys` is missing, falsy or an object, so the walk can descend through it. */
  predicate PathOpen(obj: map<string, Value>, keys: seq<string>)
    requires |keys| >= 1
    decreases |keys|
  {
    |keys| == 1
    || ((keys[0] !in obj || !Truthy(obj[keys[0]]) || obj[keys[0]].Obj?)
        && PathOpen(Child(obj, keys[0]).fields, keys[1..]))
  }

  /** `iterateStringKeys(obj, str, val)`: assign `val` at the dot-separated path `str`. */
  function IterateStringKeys(obj: map<string, Value>, str: string, val: Value): (r: Result<map<string, Value>, PathError>)
    ensures r.Success? <==> PathOpen(obj, Split(str, "."))
    ensures r.Success? ==> GetAtPath(Obj(r.value), Split(str, ".")) == Some(val)
    ensures r.Success? ==> r.value.Keys == obj.Keys + {Split(str, ".")[0]}
    ensures r.Success? ==> forall k :: k in obj && k != Split(str, ".")[0] ==> r.value[k] == obj[k]
    ensures r.Success? && |Split(str, ".")| >= 2 && Split(str, ".")[0] in obj && obj[Split(str, ".")[0]].Obj? ==>
              var keys := Split(str, ".");
              var inner := r.value[keys[0]];
              inner.Obj? && inner.fields.Keys == obj[keys[0]].fields.Keys + {keys[1]}
              && forall k :: k in obj[keys[0]].fields && k != keys[1] ==> inner.fields[k] == obj[keys[0]].fields[k]
  {
    var keys := Split(str, ".");
    var r := SetAtPath(obj, keys, val);
    SetSucceedsIffOpen(obj, keys, val);
    if r.Success? then
      SetThenGet(obj, keys, val);
      if |keys| >= 2 && keys[0] in obj && obj[keys[0]].Obj? then NestedKeepsSiblings(obj, keys, val); r else r
    else r
  }

  /** Follow a path of keys through nested objects. */
  function GetAtPath(v: Value, keys: seq<string>): Option<Value>
    decreases |keys|
  {
    if keys == [] then Some(v)
    else if v.Obj? && keys[0] in v.fields then GetAtPath(v.fields[keys[0]], keys[1..])
    else None
  }

  /** After a successful assignment, following the keys from the object reaches `val`. */
  lemma {:induction false} SetThenGet(obj: map<string, Value>, keys: seq<string>, val: Value)
    requires |keys| >= 1
    requires SetAtPath(obj, keys, val).Success?
    ensures GetAtPath(Obj(SetAtPath(obj, keys, val).value), keys) == Some(val)
    decreases |keys|
  {
    if |keys| > 1 {
      SetThenGet(Child(obj, keys[0]).fields, keys[1..], val);
    }
  }

  /** The assignment succeeds exactly when the path is open: nothing but a truthy non-object in the middle makes it throw. */
  lemma {:induction false} SetSucceedsIffOpen(obj: map<string, Value>, keys: seq<string>, val: Value)
    requires |keys| >= 1
    ensures SetAtPath(obj, keys, val).Success? <==> PathOpen(obj, keys)
    decreases |keys|
  {
    if |keys| > 1 && Child(obj, keys[0]).Obj? {
      SetSucceedsIffOpen(Child(obj, keys[0]).fields, keys[1..], val);
    }
  }

  /** On every open path the assignment succeeds and the keys lead to `val`. */
  lemma OpenPathSetThenGet(obj: map<string, Value>, keys: seq<string>, val: Value)
    requires |keys| >= 1 && PathOpen(obj, keys)
    ensures SetAtPath(obj, keys, val).Success?
    ensures GetAtPath(Obj(SetAtPath(obj, keys, val).value), keys) == Some(val)
  {
    SetSucceedsIffOpen(obj, keys, val);
    SetThenGet(obj, keys, val);
  }

  /** A falsy intermediate (`0`, `""`, `false`, `null`, `NaN`, `undefined`) is replaced by `{}`, as a missing one is. */
  lemma FalsyIntermediateReplaced(obj: map<string, Value>, keys: seq<string>, val: Value)
    requires |keys| >= 2 && keys[0] in obj && !Truthy(obj[keys[0]])
    ensures SetAtPath(obj, keys, val).Success?
    ensures SetAtPath(obj, keys, val).value[keys[0]] == Obj(SetAtPath(map[], keys[1..], val).value)
  {
    SetOnEmptySucceeds(keys[1..], val);
  }

  /** Assigning into a nested object keeps that object's other keys: "a.b" on `{a: {x: 1}}` keeps `x`. */
  lemma NestedKeepsSiblings(obj: map<string, Value>, keys: seq<string>, val: Value)
    requires |keys| >= 2 && keys[0] in obj && obj[keys[0]].Obj?
    requires SetAtPath(obj, keys, val).Success?
    ensures var inner := SetAtPath(obj, keys, val).value[keys[0]];
            inner.Obj? && inner.fields.Keys == obj[keys[0]].fields.Keys + {keys[1]}
            && forall k :: k in obj[keys[0]].fields && k != keys[1] ==> inner.fields[k] == obj[keys[0]].fields[k]
  {
    var child := obj[keys[0]].fields;
    assert Child(obj, keys[0]) == obj[keys[0]];
    var sub := SetAtPath(child, keys[1..], val);
    assert sub.Success? && SetAtPath(obj, keys, val).value[keys[0]] == Obj(sub.value);
    assert keys[1..][0] == keys[1];
  }

  /** Missing intermediate keys are created as `{}`: on an empty object the assignment always succeeds. */
  lemma {:induction false} SetOnEmptySucceeds(keys: seq<string>, val: Value)
    requires |keys| >= 1
    ensures SetAtPath(map[], keys, val).Success?
    decreases |keys|
  {
    if |keys| > 1 {
      SetOnEmptySucceeds(keys[1..], val);
    }
  }

  /** Descending through a truthy primitive in the middle of the path fails. */
  lemma SetThroughPrimitiveFails(obj: map<string, Value>, keys: seq<string>, val: Value)
    requires |keys| >= 2 && keys[0] in obj
    requires Truthy(obj[keys[0]]) && !obj[keys[0]].Obj?
    ensures SetAtPath(obj, keys, val) == Failure(NotAnObject(keys[0]))
  {
  }

  /**
   * The code's result for the documented call on "propName.some.nested.property":
   * the first key takes part in the path too (the line that would skip it is
   * commented out), so the value lands under `propName`.
   */
  lemma IterateStringKeysExample(path: string)
    requires path == "propName" + "." + ("some" + "." + ("nested" + "." + "property"))
    ensures IterateStringKeys(map[], path, Str("value"))
         == Success(map["propName" := Obj(map["some" := Obj(map["nested" := Obj(map["property" := Str("value")])])])])
  {
    DottedPathSplits("propName", "some", "nested", "property");
    NestedAssignment(["propName", "some", "nested", "property"], Str("value"));
  }

  /** Assigning along four keys on an empty object builds the three missing levels. */
  lemma NestedAssignment(keys: seq<string>, v: Value)
    requires keys == ["propName", "some", "nested", "property"]
    ensures SetAtPath(map[], keys, v)
         == Success(map["propName" := Obj(map["some" := Obj(map["nested" := Obj(map["property" := v])])])])
  {
    assert SetAtPath(map[], keys[1..][1..][1..], v) == Success(map["property" := v]) by {
      assert keys[1..][1..][1..] == ["property"];
    }
    assert SetAtPath(map[], keys[1..][1..], v) == Success(map["nested" := Obj(map["property" := v])]) by {
      assert |keys[1..][1..]| == 2 && keys[1..][1..][0] == "nested";
    }
    assert SetAtPath(map[], keys[1..], v)
        == Success(map["some" := Obj(map["nested" := Obj(map["property" := v])])]) by {
      assert |keys[1..]| == 3 && keys[1..][0] == "some";
    }
  }

  /** A path of four dot-free keys joined by dots splits back into those keys. */
  lemma DottedPathSplits(a: string, b: string, c: string, d: string)
    requires '.' !in a && '.' !in b && '.' !in c && '.' !in d
    ensures Split(a + "." + (b + "." + (c + "." + d)), ".") == [a, b, c, d]
  {
    var parts := [a, b, c, d];
    assert parts[1..] == [b, c, d];
    assert parts[1..][1..] == [c, d];
    assert parts[1..][1..][1..] == [d];
    assert Join(parts[1..][1..][1..], ".") == d;
    assert Join(parts[1..][1..], ".") == c + "." + d;
    assert Join(parts[1..], ".") == b + "." + (c + "." + d);
    assert Join(parts, ".") == a + "." + (b + "." + (c + "." + d));
    SplitJoin(parts, '.');
  }

  // ---------------------------------------------------------------------------
  // arrayMove

  /** Where `Array.prototype.splice` starts on an array of length `len`: negative starts count from the end, and both ends are clamped. */
  function SpliceStart(len: nat, start: int): (r: nat)
    ensures r <= len
    ensures 0 <= start <= len ==> r == start
    ensures -(len as int) <= start < 0 ==> r == len + start
    ensures start < -(len as int) ==> r == 0
    ensures start > len ==> r == len
  {
    if start < 0 then (if len + start < 0 then 0 else len + start)
    else if start > len then len
    else start
  }

  /** The array `splice(start, deleteCount, ...items)` leaves behind. */
  function Splice<T>(a: seq<T>, start: int, deleteCount: int, items: seq<T>): (r: seq<T>)
    ensures var s := SpliceStart(|a|, start);
            var d := if deleteCount < 0 then 0 else if deleteCount > |a| - s then |a| - s else deleteCount;
            |r| == |a| - d + |items| && r[..s] == a[..s] && r[s..s + |items|] == items && r[s + |items|..] == a[s + d..]
  {
    var s := SpliceStart(|a|, start);
    var d := if deleteCount < 0 then 0 else if deleteCount > |a| - s then |a| - s else deleteCount;
    a[..s] + items + a[s + d..]
  }

  /** The sequence without the element at `i`. */
  function RemoveAt<T>(a: seq<T>, i: nat): seq<T>
    requires i < |a|
  {
    a[..i] + a[i + 1..]
  }

  lemma RemoveAtMultiset<T>(a: seq<T>, i: nat)
    requires i < |a|
    ensures multiset(RemoveAt(a, i)) + multiset{a[i]} == multiset(a)
  {
    assert a == a[..i] + [a[i]] + a[i + 1..];
  }

  /** The array `arrayMove` returns: the element read at `fromIndex` spliced out, then spliced back in at `toIndex`. */
  function Moved<T>(arr: seq<T>, fromIndex: int, toIndex: int, missing: T): seq<T> {
    var el := if 0 <= fromIndex < |arr| then arr[fromIndex] else missing;
    Splice(Splice(arr, fromIndex, 1, []), toIndex, 0, [el])
  }

  /** Moving an element that exists: same length and elements; it lands at `toIndex` (clamped as `splice` does) and the others keep their order. */
  lemma MovedInRange<T>(arr: seq<T>, fromIndex: int, toIndex: int, missing: T)
    requires 0 <= fromIndex < |arr|
    ensures var copy := Moved(arr, fromIndex, toIndex, missing);
            var t := SpliceStart(|arr| - 1, toIndex);
            |copy| == |arr| && multiset(copy) == multiset(arr)
            && copy[t] == arr[fromIndex] && RemoveAt(copy, t) == RemoveAt(arr, fromIndex)
            && (0 <= toIndex < |arr| ==> copy[toIndex] == arr[fromIndex])
  {
    var el := arr[fromIndex];
    var removed := Splice(arr, fromIndex, 1, []);
    assert removed == RemoveAt(arr, fromIndex) by {
      SpliceOutOne(arr, fromIndex);
    }
    var copy := Splice(removed, toIndex, 0, [el]);
    assert copy == Moved(arr, fromIndex, toIndex, missing);
    var t := SpliceStart(|removed|, toIndex);
    assert |copy| == |arr| && copy[t] == el && RemoveAt(copy, t) == removed by {
      SpliceInOne(removed, toIndex, el);
    }
    assert multiset(copy) == multiset(arr) by {
      ReinsertMultiset(arr, fromIndex, copy, t);
    }
  }

  /** Putting back at `t` the element removed at `i` keeps the multiset. */
  lemma ReinsertMultiset<T>(a: seq<T>, i: nat, b: seq<T>, t: nat)
    requires i < |a| && t < |b| && b[t] == a[i] && RemoveAt(b, t) == RemoveAt(a, i)
    ensures multiset(b) == multiset(a)
  {
    RemoveAtMultiset(a, i);
    RemoveAtMultiset(b, t);
  }

  /** An index past the end removes nothing and inserts `undefined`. */
  lemma MovedPastEnd<T>(arr: seq<T>, fromIndex: int, toIndex: int, missing: T)
    requires fromIndex >= |arr|
    ensures var copy := Moved(arr, fromIndex, toIndex, missing);
            var t := SpliceStart(|arr|, toIndex);
            |copy| == |arr| + 1 && copy[t] == missing && RemoveAt(copy, t) == arr
  {
    SpliceOutOne(arr, fromIndex);
    SpliceInOne(arr, toIndex, missing);
  }

  /** A negative index still reads `undefined`, but `splice` removes an element counted from the end. */
  lemma MovedNegative<T>(arr: seq<T>, fromIndex: int, toIndex: int, missing: T)
    requires fromIndex < 0 && |arr| > 0
    ensures var copy := Moved(arr, fromIndex, toIndex, missing);
            var d := SpliceStart(|arr|, fromIndex);
            var t := SpliceStart(|arr| - 1, toIndex);
            |copy| == |arr| && copy[t] == missing && RemoveAt(copy, t) == RemoveAt(arr, d)
  {
    var d := SpliceStart(|arr|, fromIndex);
    var removed := Splice(arr, fromIndex, 1, []);
    assert d < |arr|;
    assert removed == RemoveAt(arr, d) by {
      SpliceOutOne(arr, fromIndex);
    }
    assert |removed| == |arr| - 1;
    assert Moved(arr, fromIndex, toIndex, missing) == Splice(removed, toIndex, 0, [missing]);
    SpliceInOne(removed, toIndex, missing);
  }

  /**
   * `arrayMove`: copy the array, read the element at `fromIndex` (`missing`,
   * standing for `undefined`, when that index is not an element), splice it
   * out, and splice it back in at `toIndex`. The argument itself is a value
   * here and cannot change.
   */
  method ArrayMove<T>(arr: seq<T>, fromIndex: int, toIndex: int, missing: T) returns (copy: seq<T>)
    ensures 0 <= fromIndex < |arr| ==> |copy| == |arr| && multiset(copy) == multiset(arr)
    ensures 0 <= fromIndex < |arr| ==>
              var t := SpliceStart(|arr| - 1, toIndex);
              copy[t] == arr[fromIndex] && RemoveAt(copy, t) == RemoveAt(arr, fromIndex)
    ensures 0 <= fromIndex < |arr| && 0 <= toIndex < |arr| ==> copy[toIndex] == arr[fromIndex]
    ensures fromIndex >= |arr| ==>
              |copy| == |arr| + 1 && copy[SpliceStart(|arr|, toIndex)] == missing
              && RemoveAt(copy, SpliceStart(|arr|, toIndex)) == arr
    ensures fromIndex < 0 && |arr| > 0 ==>
              var d := SpliceStart(|arr|, fromIndex);
              var t := SpliceStart(|arr| - 1, toIndex);
              |copy| == |arr| && copy[t] == missing && RemoveAt(copy, t) == RemoveAt(arr, d)
    ensures fromIndex < 0 && |arr| == 0 ==> copy == [missing]
  {
    copy := arr;
    var el := if 0 <= fromIndex < |copy| then copy[fromIndex] else missing;
    copy := Splice(copy, fromIndex, 1, []);
    copy := Splice(copy, toIndex, 0, [el]);
    assert copy == Moved(arr, fromIndex, toIndex, missing);
    if 0 <= fromIndex < |arr| {
      MovedInRange(arr, fromIndex, toIndex, missing);
    } else if fromIndex >= |arr| {
      MovedPastEnd(arr, fromIndex, toIndex, missing);
    } else if |arr| > 0 {
      MovedNegative(arr, fromIndex, toIndex, missing);
    }
  }

  /** `splice(start, 1)`: the element at the clamped start is removed, and nothing when the start is the end. */
  lemma SpliceOutOne<T>(a: seq<T>, start: int)
    ensures var d := SpliceStart(|a|, start);
            (d < |a| ==> Splice(a, start, 1, []) == RemoveAt(a, d)) && (d == |a| ==> Splice(a, start, 1, []) == a)
  {
    var d := SpliceStart(|a|, start);
    if d == |a| {
      assert a[..d] == a;
    }
  }

  /** `splice(start, 0, el)`: `el` lands at the clamped start, and removing it gives the array back. */
  lemma SpliceInOne<T>(a: seq<T>, start: int, el: T)
    ensures var t := SpliceStart(|a|, start);
            var r := Splice(a, start, 0, [el]);
            |r| == |a| + 1 && r[t] == el && RemoveAt(r, t) == a
  {
    var t := SpliceStart(|a|, start);
    var r := Splice(a, start, 0, [el]);
    assert r == a[..t] + [el] + a[t..];
    assert RemoveAt(r, t) == a[..t] + a[t..];
    assert a[..t] + a[t..] == a;
  }


  // ---------------------------------------------------------------------------
  // String.prototype.replace with a string pattern

  /** Where `s.indexOf(p)` finds `p`; the empty pattern is found at 0. */
  function IndexOf(s: string, p: string): (r: Option<nat>)
    ensures r.Some? ==> OccursAt(s, p, r.value)
    ensures r.Some? ==> forall j: nat :: j < r.value ==> !OccursAt(s, p, j)
    ensures r.None? ==> forall j: nat :: !OccursAt(s, p, j)
  {
    if |p| == 0 then Some(0) else IndexFrom(s, p, 0)
  }

  /**
   * The replacement text `replace` inserts for a match of `matched` at
   * `position` in `str`: `$$` is a dollar sign, `$&` the match, `` $` `` the
   * text before it, `$'` the text after it; with a string pattern there are
   * no captures, so every other `$` stands for itself.
   */
  function Substitution(matched: string, str: string, position: nat, replacement: string): string
    requires position + |matched| <= |str|
    decreases |replacement|
  {
    if |replacement| == 0 then ""
    else if replacement[0] == '$' && |replacement| >= 2 then
      var tail := Substitution(matched, str, position, replacement[2..]);
      var n := replacement[1];
      if n == '$' then "$" + tail
      else if n == '&' then matched + tail
      else if n == '`' then str[..position] + tail
      else if n == '\'' then str[position + |matched|..] + tail
      else "$" + Substitution(matched, str, position, replacement[1..])
    else [replacement[0]] + Substitution(matched, str, position, replacement[1..])
  }

  /** A replacement without `$` is inserted as it is. */
  lemma {:induction false} SubstitutionLiteral(matched: string, str: string, position: nat, replacement: string)
    requires position + |matched| <= |str|
    requires '$' !in replacement
    ensures Substitution(matched, str, position, replacement) == replacement
    decreases |replacement|
  {
    if |replacement| > 0 {
      SubstitutionLiteral(matched, str, position, replacement[1..]);
    }
  }

  /** `s.replace(pattern, replacement)` for a string pattern: only the first occurrence is replaced. */
  function ReplaceFirst(s: string, pattern: string, replacement: string): (r: string)
    ensures IndexOf(s, pattern).None? ==> r == s
  {
    match IndexOf(s, pattern)
    case None => s
    case Some(i) => s[..i] + Substitution(pattern, s, i, replacement) + s[i + |pattern|..]
  }

  /** With a `$`-free replacement, the first occurrence and nothing else is swapped for the replacement. */
  lemma ReplaceFirstLiteral(s: string, pattern: string, replacement: string, i: nat)
    requires '$' !in replacement
    requires OccursAt(s, pattern, i) && forall j: nat :: j < i ==> !OccursAt(s, pattern, j)
    ensures ReplaceFirst(s, pattern, replacement) == s[..i] + replacement + s[i + |pattern|..]
  {
    var k := IndexOf(s, pattern);
    assert k == Some(i);
    SubstitutionLiteral(pattern, s, i, replacement);
  }

  /** `$$` in the new value is written as a single `$`. */
  lemma DollarPatternExample()
    ensures ReplaceFirst("a:: 1", "1", "$$5") == "a:: $5"
  {
    var s := "a:: 1";
    assert OccursAt(s, "1", 4);
    forall j: nat | j < 4 ensures !OccursAt(s, "1", j) { assert s[j..j + 1] == [s[j]]; }
    IndexFromFirst(s, "1", 0, 4);
    assert Substitution("1", s, 4, "5") == "5";
  }

  // ---------------------------------------------------------------------------
  // Inline-field rewrite

  /**
   * A field the inline-field parser found: the trimmed key and value, the
   * index of the line it is on, and the whole matched text.
   */
  datatype InlineField = InlineField(key: string, value: string, line: nat, matched: string)

  datatype InlineError =
    | NoMatchingField        // no parsed field has the key and the old value
    | OldValueNotPrintable   // `oldValue.toString()` on null or undefined

  /**
   * The `find` over the parsed fields, from index `i`: the first whose key is
   * `name` and whose value is the old value's text. With no text for the old
   * value, the first field with that key throws.
   */
  function FindField(fields: seq<InlineField>, name: string, oldText: Option<string>, i: nat): (r: Result<nat, InlineError>)
    requires i <= |fields|
    ensures r.Success? ==>
              i <= r.value < |fields| && fields[r.value].key == name && oldText == Some(fields[r.value].value)
              && forall j :: i <= j < r.value ==> fields[j].key != name || oldText != Some(fields[j].value)
    ensures r == Failure(NoMatchingField) <==>
              forall j :: i <= j < |fields| ==> fields[j].key != name || (oldText.Some? && oldText != Some(fields[j].value))
    ensures r == Failure(OldValueNotPrintable) <==> oldText.None? && exists j :: i <= j < |fields| && fields[j].key == name
    decreases |fields| - i
  {
    if i == |fields| then Failure(NoMatchingField)
    else if fields[i].key != name then FindField(fields, name, oldText, i + 1)
    else if oldText.None? then Failure(OldValueNotPrintable)
    else if fields[i].value == oldText.value then Success(i)
    else FindField(fields, name, oldText, i + 1)
  }

  /** The text `newValue?.toString()` passes to `replace`: `undefined` prints as "undefined". */
  function ReplacementText(v: Value): string {
    match ToStr(v)
    case None => "undefined"
    case Some(t) => t
  }

  /** A line with its field's matched text rewritten: the old value's text is replaced inside the match, and the match inside the line. */
  function RewriteLine(line: string, matched: string, oldText: string, newText: string): string {
    ReplaceFirst(line, matched, ReplaceFirst(matched, oldText, newText))
  }

  /**
   * What the rewrite produces: the error `FindField` reports, or the lines
   * with the found field's line rewritten and every other line as it was.
   */
  predicate IsInlineRewrite(lines: seq<string>, fields: seq<InlineField>, name: string, oldValue: Value, newValue: Value,
                            r: Result<seq<string>, InlineError>)
    requires forall f :: f in fields ==> f.line < |lines|
  {
    var found := FindField(fields, name, ToStr(oldValue), 0);
    match found
    case Failure(e) => r == Failure(e)
    case Success(k) =>
      var f := fields[k];
      assert f in fields;
      r.Success? && |r.value| == |lines|
      && r.value[f.line] == RewriteLine(lines[f.line], f.matched, f.value, ReplacementText(newValue))
      && forall j :: 0 <= j < |lines| && j != f.line ==> r.value[j] == lines[j]
  }

  /**
   * The rewrite in `udpateInlineField`, on the file's lines and the fields
   * parsed from them: find the field, rewrite its line and assign it back.
   */
  method UpdateInlineField(lines: seq<string>, fields: seq<InlineField>, name: string, oldValue: Value, newValue: Value)
    returns (r: Result<seq<string>, InlineError>)
    requires forall f :: f in fields ==> f.line < |lines|
    ensures IsInlineRewrite(lines, fields, name, oldValue, newValue, r)
  {
    var found := FindField(fields, name, ToStr(oldValue), 0);
    if found.Failure? {
      return Failure(found.error);
    }
    var field := fields[found.value];
    assert field in fields;
    var oldLineContent := lines[field.line];
    var newLineContent := RewriteLine(oldLineContent, field.matched, ToStr(oldValue).value, ReplacementText(newValue));
    var result := lines;
    result := result[field.line := newLineContent];
    r := Success(result);
  }

  /**
   * The key is part of the matched text, so an old value that also occurs in
   * the key is replaced there: `x1:: 1` set from 1 to 2 becomes `x2:: 1`.
   */
  lemma RewriteLineHitsKey()
    ensures RewriteLine("x1:: 1", "x1:: 1", "1", "2") == "x2:: 1"
  {
    var m := "x1:: 1";
    assert OccursAt(m, "1", 1);
    assert !OccursAt(m, "1", 0) by { assert m[0..1] == "x"; }
    ReplaceFirstLiteral(m, "1", "2", 1);
    assert ReplaceFirst(m, "1", "2") == "x2:: 1";
    assert OccursAt(m, m, 0);
    ReplaceFirstLiteral(m, m, "x2:: 1", 0);
  }

  /** Where `s.lastIndexOf(p)` finds `p`. */
  function LastIndexOf(s: string, p: string, below: nat): (r: Option<nat>)
    requires below <= |s|
    ensures r.Some? ==> r.value <= below && OccursAt(s, p, r.value)
    ensures r.Some? ==> forall j: nat :: r.value < j <= below ==> !OccursAt(s, p, j)
    ensures r.None? ==> forall j: nat :: j <= below ==> !OccursAt(s, p, j)
    decreases below
  {
    if OccursAt(s, p, below) then Some(below)
    else if below == 0 then None
    else LastIndexOf(s, p, below - 1)
  }

  /** The rewrite as intended: the value is the last thing in the match, so replace its last occurrence. */
  function RewriteValue(matched: string, oldText: string, newText: string): string {
    match LastIndexOf(matched, oldText, |matched|)
    case None => matched
    case Some(i) => matched[..i] + newText + matched[i + |oldText|..]
  }

  /** `RewriteValue` keeps everything before the value, the key included, and everything after it. */
  lemma RewriteValueKeepsKey(head: string, oldText: string, tail: string, newText: string)
    requires forall j: nat :: 0 < j ==> !OccursAt(oldText + tail, oldText, j)
    ensures RewriteValue(head + oldText + tail, oldText, newText) == head + newText + tail
  {
    var m := head + oldText + tail;
    assert OccursAt(m, oldText, |head|) by { assert m[|head|..|head| + |oldText|] == oldText; }
    forall j: nat | |head| < j <= |m| ensures !OccursAt(m, oldText, j) {
      if j + |oldText| <= |m| {
        assert m[j..j + |oldText|] == (oldText + tail)[j - |head|..j - |head| + |oldText|];
        assert !OccursAt(oldText + tail, oldText, j - |head|);
      }
    }
    var k := LastIndexOf(m, oldText, |m|);
    assert k == Some(|head|);
    assert m[..|head|] == head;
    assert m[|head| + |oldText|..] == tail;
  }

  /** With the intended rewrite, `x1:: 1` set from 1 to 2 becomes `x1:: 2`. */
  lemma RewriteValueExample()
    ensures RewriteValue("x1:: 1", "1", "2") == "x1:: 2"
  {
    assert "x1:: 1" == "x1:: " + "1" + "";
    forall j: nat | 0 < j ensures !OccursAt("1" + "", "1", j) { }
    RewriteValueKeepsKey("x1:: ", "1", "", "2");
  }

  // ---------------------------------------------------------------------------
  // updateMetaData

  /** What `dv.page(filePath)` tells about a property: the frontmatter keys, and every field of the page. */
  datatype PageView = PageView(frontmatterKeys: set<string>, fields: map<string, Value>)

  /**
   * `checkForInlineField`: `dv.page` gives `undefined` for a file Dataview
   * has not indexed (`None`), and reading `f.file` then throws; otherwise a
   * page field that is not a frontmatter key is inline, and its value is returned.
   */
  function CheckForInlineField(name: string, page: Option<PageView>): (r: Result<Option<Value>, MetaError>)
    ensures r.Failure? <==> page.None?
    ensures r.Failure? ==> r.error == PageNotIndexed
    ensures r.Success? ==> (r.value.Some? <==> name !in page.value.frontmatterKeys && name in page.value.fields)
    ensures r.Success? && r.value.Some? ==> r.value.value == page.value.fields[name]
  {
    match page
    case None => Failure(PageNotIndexed)
    case Some(f) =>
      if name in f.frontmatterKeys then Success(None)
      else if name in f.fields then Success(Some(f.fields[name]))
      else Success(None)
  }

  /** `===` between a new value and a stored one: primitives by value (NaN never equal); objects, being different references, never. */
  predicate StrictEquals(a: Value, b: Value) {
    match a
    case Undefined => b.Undefined?
    case Null => b.Null?
    case Bool(x) => b.Bool? && b.b == x
    case Num(x) => b.Num? && b.n == x
    case Str(x) => b.Str? && b.s == x
    case _ => false
  }

  datatype MetaError = FileNotFound | PageNotIndexed | Inline(inline: InlineError) | Path(path: PathError)

  /** Where an update ends: an exception, nothing to do, a rewritten file (inline field), or new frontmatter. */
  datatype MetaOutcome =
    | Thrown(error: MetaError)
    | Untouched
    | FileRewritten(lines: seq<string>)
    | FrontmatterWritten(frontmatter: map<string, Value>)

  /**
   * `updateMetaData`: a missing file throws; a name without dots is an inline
   * field when the page has it outside the frontmatter, and is then rewritten
   * in the file unless it already holds the value; otherwise it is set in the
   * frontmatter; looking it up throws when Dataview has no page for the file;
   * a dotted name is assigned along its path in the frontmatter.
   */
  method UpdateMetaData(name: string, value: Value, fileExists: bool, frontmatter: map<string, Value>,
                        page: Option<PageView>, lines: seq<string>, fields: seq<InlineField>)
    returns (out: MetaOutcome)
    requires forall f :: f in fields ==> f.line < |lines|
    ensures !fileExists ==> out == Thrown(FileNotFound)
    ensures fileExists && |Split(name, ".")| > 1 ==>
              match IterateStringKeys(frontmatter, name, value)
              case Success(fm) => out == FrontmatterWritten(fm)
              case Failure(e) => out == Thrown(Path(e))
    ensures fileExists && |Split(name, ".")| == 1 && page.None? ==> out == Thrown(PageNotIndexed)
    ensures fileExists && |Split(name, ".")| == 1 && CheckForInlineField(name, page) == Success(None) ==>
              out == FrontmatterWritten(frontmatter[name := value])
    ensures fileExists && |Split(name, ".")| == 1 && CheckForInlineField(name, page).Success?
            && CheckForInlineField(name, page).value.Some? ==>
              var stored := CheckForInlineField(name, page).value.value;
              if StrictEquals(value, stored) then out == Untouched
              else (out.FileRewritten? && IsInlineRewrite(lines, fields, name, stored, value, Success(out.lines)))
                   || (out.Thrown? && out.error.Inline? && IsInlineRewrite(lines, fields, name, stored, value, Failure(out.error.inline)))
  {
    if !fileExists {
      return Thrown(FileNotFound);
    }
    var keys := Split(name, ".");
    if |keys| == 1 {
      var isInlineField := CheckForInlineField(name, page);
      if isInlineField.Failure? {
        return Thrown(isInlineField.error);
      }
      if isInlineField.value.Some? {
        var stored := isInlineField.value.value;
        if StrictEquals(value, stored) {
          return Untouched;
        }
        var rewritten := UpdateInlineField(lines, fields, name, stored, value);
        match rewritten {
          case Success(newLines) => out := FileRewritten(newLines);
          case Failure(e) => out := Thrown(Inline(e));
        }
        return;
      }
      return FrontmatterWritten(frontmatter[name := value]);
    }
    match IterateStringKeys(frontmatter, name, value)
    case Success(fm) => { out := FrontmatterWritten(fm); }
    case Failure(e) => { out := Thrown(Path(e)); }
  }

  // ---------------------------------------------------------------------------
  // isDateWithTime

  /** `isDateWithTime`: a DateTime has a significant time unless its hour, minute and second are all 0. */
  function IsDateWithTime(dt: Value): (r: bool)
    requires dt.DateTime?
    ensures dt.hour >= 0 && dt.minute >= 0 && dt.second >= 0 ==>
              (r <==> 3600 * dt.hour + 60 * dt.minute + dt.second > 0)
  {
    !(dt.second == 0 && dt.minute == 0 && dt.hour == 0)
  }
}
