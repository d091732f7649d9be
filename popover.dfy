// The `Suggester` of `src/components/ui/Popover/index.tsx`: a selection index
// over the suggestion list, stepped cyclically by the arrow keys, cleared by
// Escape and by the mouse leaving an item, and reported to `onSelect` each time
// it changes.

module Popover {
  import opened Wrappers

  /** A key of a keydown event. */
  datatype Key = ArrowDown | ArrowUp | Escape | OtherKey(name: string)

  /** `selectNext` on a list of `n` suggestions: wraps to 0 after the last one and from no selection. */
  function Next(prev: Option<int>, n: int): (r: int)
    ensures prev.None? ==> r == 0
    ensures prev.Some? && prev.value + 1 >= n ==> r == 0
    ensures prev.Some? && prev.value + 1 < n ==> r == prev.value + 1
  {
    if prev.None? || prev.value + 1 >= n then 0 else prev.value + 1
  }

  /** `selectPrev`: wraps to the last index before 0 and from no selection. */
  function Prev(prev: Option<int>, n: int): (r: int)
    ensures prev.None? ==> r == n - 1
    ensures prev.Some? && prev.value - 1 < 0 ==> r == n - 1
    ensures prev.Some? && prev.value - 1 >= 0 ==> r == prev.value - 1
  {
    if prev.None? || prev.value - 1 < 0 then n - 1 else prev.value - 1
  }

  /** `handleKeyPress`: ArrowDown selects the next, ArrowUp the previous, Escape clears; other keys change nothing. */
  function KeyStep(prev: Option<int>, key: Key, n: int): (r: Option<int>)
    ensures key.ArrowDown? ==> r == Some(Next(prev, n))
    ensures key.ArrowUp? ==> r == Some(Prev(prev, n))
    ensures key.Escape? ==> r == None
    ensures key.OtherKey? ==> r == prev
  {
    match key {
      case ArrowDown => Some(Next(prev, n))
      case ArrowUp => Some(Prev(prev, n))
      case Escape => None
      case OtherKey(_) => prev
    }
  }

  /** The selection after a run of keys. */
  function KeySteps(prev: Option<int>, keys: seq<Key>, n: int): Option<int>
    decreases |keys|
  {
    if |keys| == 0 then prev else KeySteps(KeyStep(prev, keys[0], n), keys[1..], n)
  }

  /** No selection, or one inside a list of `n` suggestions. */
  predicate InRange(sel: Option<int>, n: int) {
    sel.None? || 0 <= sel.value < n
  }

  /** Over a non-empty list both steps stay inside it. */
  lemma StepsStayInRange(prev: Option<int>, n: int)
    requires n > 0 && InRange(prev, n)
    ensures 0 <= Next(prev, n) < n && 0 <= Prev(prev, n) < n
  {
  }

  /** Every selection reachable by keys from no selection, or from a selection in the list, is in the list. */
  lemma {:induction false} ReachableInRange(prev: Option<int>, keys: seq<Key>, n: int)
    requires n > 0 && InRange(prev, n)
    ensures InRange(KeySteps(prev, keys, n), n)
    decreases |keys|
  {
    if |keys| > 0 {
      StepsStayInRange(prev, n);
      ReachableInRange(KeyStep(prev, keys[0], n), keys[1..], n);
    }
  }

  /** ArrowUp undoes ArrowDown and ArrowDown undoes ArrowUp, around the end of the list included. */
  lemma NextPrevInverse(i: int, n: int)
    requires 0 <= i < n
    ensures Prev(Some(Next(Some(i), n)), n) == i
    ensures Next(Some(Prev(Some(i), n)), n) == i
  {
  }

  /** Over an empty list, where only no selection is in range, both arrows select an index outside it: 0 and -1. */
  lemma EmptyListSelectsOutside()
    ensures KeyStep(None, ArrowDown, 0) == Some(0) && !InRange(Some(0), 0)
    ensures KeyStep(None, ArrowUp, 0) == Some(-1) && !InRange(Some(-1), 0)
  {
  }

  /** The arguments of an `onSelect(suggestions[selected], selected)` call. */
  datatype Notice = Notice(text: Option<string>, index: Option<int>)

  /** `suggestions[selected]` is `undefined` when nothing, or nothing in the list, is selected. */
  function NoticeFor(suggestions: seq<string>, sel: Option<int>): (r: Notice)
    ensures r.index == sel
    ensures r.text.Some? <==> InRange(sel, |suggestions|) && sel.Some?
    ensures r.text.Some? ==> r.text.value == suggestions[sel.value]
  {
    if sel.Some? && 0 <= sel.value < |suggestions| then Notice(Some(suggestions[sel.value]), sel)
    else Notice(None, sel)
  }

  class Suggester {
    var selected: Option<int>
    /** `renderSuggestions(query)` of the latest render. */
    var suggestions: seq<string>
    /** The list seen by the keydown handler, which is registered once, at mount. */
    const mounted: seq<string>
    /** The `onSelect` calls made so far. */
    var notices: seq<Notice>

    /** The first render and its effects: nothing selected, and one `onSelect` call for it. */
    constructor (initial: seq<string>)
      ensures selected == None && suggestions == initial && mounted == initial
      ensures notices == [Notice(None, None)]
    {
      selected := None;
      suggestions := initial;
      mounted := initial;
      notices := [NoticeFor(initial, None)];
    }

    /** `setSelected(v)`: a changed selection re-renders and calls `onSelect` with the current list; an equal one does nothing. */
    method SetSelected(v: Option<int>)
      modifies this
      ensures selected == v && suggestions == old(suggestions)
      ensures v != old(selected) ==> notices == old(notices) + [NoticeFor(suggestions, v)]
      ensures v == old(selected) ==> notices == old(notices)
    {
      if v != selected {
        selected := v;
        notices := notices + [NoticeFor(suggestions, v)];
      }
    }

    /** A new query renders a new list; the selection is kept. */
    method Rerender(newSuggestions: seq<string>)
      modifies this
      ensures suggestions == newSuggestions && selected == old(selected) && notices == old(notices)
    {
      suggestions := newSuggestions;
    }

    /** The keydown handler as written: its `suggestions.length` is that of the list at mount. */
    method HandleKeyPress(key: Key)
      modifies this
      ensures selected == KeyStep(old(selected), key, |mounted|)
      ensures suggestions == old(suggestions)
      ensures selected != old(selected) ==> notices == old(notices) + [NoticeFor(suggestions, selected)]
      ensures selected == old(selected) ==> notices == old(notices)
    {
      SetSelected(KeyStep(selected, key, |mounted|));
    }

    /** The keydown handler as intended: it steps over the current list, and so keeps the selection inside it. */
    method HandleKeyPressCorrected(key: Key)
      modifies this
      ensures selected == KeyStep(old(selected), key, |suggestions|)
      ensures suggestions == old(suggestions)
      ensures |suggestions| > 0 && InRange(old(selected), |suggestions|) ==> InRange(selected, |suggestions|)
      ensures selected != old(selected) ==> notices == old(notices) + [NoticeFor(suggestions, selected)]
      ensures selected == old(selected) ==> notices == old(notices)
    {
      if |suggestions| > 0 && InRange(selected, |suggestions|) {
        ReachableInRange(selected, [key], |suggestions|);
        assert KeySteps(selected, [key], |suggestions|) == KeyStep(selected, key, |suggestions|);
      }
      SetSelected(KeyStep(selected, key, |suggestions|));
    }

    /** The mouse entering item `i` selects it. */
    method MouseEnter(i: nat)
      requires i < |suggestions|
      modifies this
      ensures selected == Some(i) && suggestions == old(suggestions)
      ensures Some(i) != old(selected) ==> notices == old(notices) + [Notice(Some(suggestions[i]), Some(i))]
      ensures Some(i) == old(selected) ==> notices == old(notices)
    {
      SetSelected(Some(i));
    }

    /** The mouse leaving an item clears the selection. */
    method MouseLeave()
      modifies this
      ensures selected == None && suggestions == old(suggestions)
      ensures old(selected).Some? ==> notices == old(notices) + [Notice(None, None)]
      ensures old(selected).None? ==> notices == old(notices)
    {
      SetSelected(None);
    }
  }

  /**
   * Mounted with three suggestions and narrowed to one, two ArrowDown presses
   * select index 1 as written, outside the one-item list, while the corrected
   * handler wraps back to 0.
   */
  method StaleListExample() returns (asWritten: Option<int>, corrected: Option<int>, shown: nat)
    ensures asWritten == Some(1) && shown == 1 && !InRange(asWritten, shown)
    ensures corrected == Some(0) && InRange(corrected, shown)
  {
    var s := new Suggester(["a", "ab", "abc"]);
    s.Rerender(["abc"]);
    s.HandleKeyPress(ArrowDown);
    s.HandleKeyPress(ArrowDown);
    asWritten := s.selected;
    shown := |s.suggestions|;
    var t := new Suggester(["a", "ab", "abc"]);
    t.Rerender(["abc"]);
    t.HandleKeyPressCorrected(ArrowDown);
    t.HandleKeyPressCorrected(ArrowDown);
    corrected := t.selected;
  }
}
