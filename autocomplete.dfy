/** The component itself: one object whose fields the entry points update in place.
    Every method is proved to perform the transition of the same name in WidgetState, so
    the lemmas there are facts about these methods. */
module AutoComplete {
  import opened Types
  import Geometry
  import Navigation
  import Strings
  import SearchPipeline
  import opened WidgetState

  class AutoCompleteComponent {
    // the subjects
    var hasFocus: bool
    var loading: bool
    var focusIndex: int
    var ddOpen: bool
    var results: seq<SearchResult>
    var searchTerm: Term
    // `textControl.value` and what `dataSelected` has emitted
    var text: Term
    var emitted: seq<Selection>
    // the DOM: its current geometry, the portal, the items scrolled into view
    var layout: Geometry.Layout
    var portal: Portal
    var scrolled: seq<nat>
    // `searchResult$`'s operators: debounce slot, distinct memory, live search
    var pending: Option<Term>
    var lastAccepted: Option<Term>
    var generation: nat
    var inFlight: Option<Term>
    ghost var fired: seq<Term>
    ghost var accepted: seq<Term>

    /** The component's fields as one value. */
    ghost function Snapshot(): State
      reads this
    {
      State(hasFocus, loading, focusIndex, ddOpen, results, searchTerm, text, emitted,
            layout, portal, scrolled,
            SearchPipeline.Pipeline(pending, lastAccepted, generation, inFlight, fired, accepted))
    }

    ghost predicate Valid()
      reads this
    {
      WidgetState.Valid(Snapshot())
    }

    constructor (initialLayout: Geometry.Layout)
      ensures Snapshot() == Initial(initialLayout) && Valid()
    {
      hasFocus, loading, focusIndex, ddOpen := false, false, -1, false;
      results, searchTerm, text, emitted := [], Str(""), Null, [];
      layout, portal, scrolled := initialLayout, Portal(0, 0, 0.0, 0.0), [];
      pending, lastAccepted, generation, inFlight := Some(Str("")), None, 0, None;
      fired, accepted := [], [];
    }

    /** The browser lays the page out anew. */
    method Render(l: Geometry.Layout)
      requires Valid()
      modifies this
      ensures Valid() && Snapshot() == old(Snapshot()).(layout := l)
    {
      layout := l;
    }

    /** `setDropdown(show)`. */
    method SetDropdown(show: bool)
      modifies this
      ensures Snapshot() == WidgetState.SetDropdown(old(Snapshot()), show)
    {
      if show {
        if !ddOpen {
          var box := Geometry.ElementPosition(layout.searchBox, layout.viewport);
          portal := Portal(portal.attaches + 1, portal.detaches, box.top + box.height, box.left);
        }
        ddOpen := true;
      } else {
        if ddOpen {
          portal := portal.(detaches := portal.detaches + 1);
        }
        ddOpen := false;
      }
    }

    /** `_hasFocus.next(b)`, which `dropdownOpen$` follows with `setDropdown`. */
    method SetFocus(b: bool)
      modifies this
      ensures Snapshot() == Sync(old(Snapshot()).(hasFocus := b))
    {
      hasFocus := b;
      SetDropdown(hasFocus && |results| > 0);
    }

    /** `_searchTerm.next(t)`: the debounce slot takes `t` and `takeUntil` ends the live search. */
    method PushTerm(t: Term)
      modifies this
      ensures Snapshot() == WidgetState.PushTerm(old(Snapshot()), t)
    {
      searchTerm := t;
      pending := Some(t);
      generation := generation + 1;
      inFlight := None;
    }

    /** `_reset`. */
    method Reset()
      modifies this
      ensures Snapshot() == WidgetState.Reset(old(Snapshot()))
      ensures old(Consistent(Snapshot())) ==> Valid()
    {
      ghost var s := Snapshot();
      SetFocus(false);
      loading := false;
      focusIndex := -1;
      if Consistent(s) {
        ResetValid(s);
      }
    }

    /** The `defaultSearchText` input. */
    method SetDefaultSearchText(value: Term)
      requires Valid()
      modifies this
      ensures Valid() && Snapshot() == WidgetState.SetDefaultSearchText(old(Snapshot()), value)
    {
      ghost var s := Snapshot();
      text := value;
      PushTerm(value);
      StepPreservesValid(s, DefaultText(value));
    }

    /** `onTextBoxClick`. */
    method OnTextBoxClick()
      requires Valid()
      modifies this
      ensures Valid() && Snapshot() == TextBoxClick(old(Snapshot()))
    {
      ghost var s := Snapshot();
      PushTerm(text);
      SetFocus(true);
      TextBoxClickValid(s);
    }

    /** Typing `value` into the bound text box, then `onTextChange(value)`. */
    method OnTextChange(value: string)
      requires Valid()
      modifies this
      ensures Valid() && Snapshot() == TextChange(old(Snapshot()), value)
    {
      ghost var s := Snapshot();
      text := Str(value);
      SetFocus(true);
      PushTerm(Str(value));
      TextChangeValid(s, value);
    }

    /** `onBlur`. */
    method OnBlur()
      requires Valid()
      modifies this
      ensures Valid() && Snapshot() == WidgetState.Reset(old(Snapshot()))
    {
      Reset();
    }

    /** `outsideClick`. */
    method OutsideClick()
      requires Valid()
      modifies this
      ensures Valid() && Snapshot() == WidgetState.Reset(old(Snapshot()))
    {
      OnBlur();
    }

    /** `_onEscape`. */
    method OnEscape()
      requires Valid()
      modifies this
      ensures Valid() && Snapshot() == WidgetState.Reset(old(Snapshot()))
    {
      OnBlur();
    }

    /** `onBtnClick`. */
    method OnBtnClick()
      requires Valid()
      modifies this
      ensures Valid() && Snapshot() == ButtonClick(old(Snapshot()))
    {
      ghost var s := Snapshot();
      if text.Str? && Strings.Trim(text.chars) != [] {
        emitted := emitted + [Selection(None, text)];
      }
      ButtonClickValid(s);
    }

    /** `onDropdownClick` on an element whose `data-key` and `data-value` are `key` and `value`. */
    method OnDropdownClick(key: Option<string>, value: Term)
      requires Valid()
      modifies this
      ensures Valid() && Snapshot() == DropdownClick(old(Snapshot()), key, value)
    {
      if key.Some? && key.value != "" {
        Reset();
        emitted := emitted + [Selection(key, value)];
        text := value;
      }
    }

    /** `_onEnter(typed)`. */
    method OnEnter(typed: string) returns (outcome: Outcome)
      requires Valid()
      modifies this
      ensures Valid()
      ensures Transition(Snapshot(), outcome) == Enter(old(Snapshot()), typed)
      ensures old(0 <= focusIndex < |results|) ==> var r := old(results[focusIndex]);
        outcome == Completed && emitted == old(emitted) + [Selection(r.id, Str(r.text))] && text == Str(r.text)
      ensures old(focusIndex != -1 && !(0 <= focusIndex < |results|)) ==>
        outcome == TypeError && emitted == old(emitted)
      ensures outcome == Completed ==> !ddOpen && !hasFocus && focusIndex == -1
    {
      ghost var s := Snapshot();
      if focusIndex != -1 {
        if !(0 <= focusIndex < |results|) {
          return TypeError;
        }
        var r := results[focusIndex];
        text := Str(r.text);
        emitted := emitted + [Selection(r.id, Str(r.text))];
      } else {
        emitted := emitted + [Selection(None, Str(typed))];
      }
      OnBlur();
      outcome := Completed;
    }

    /** `_onArrowMove(index)`. */
    method OnArrowMove(index: int) returns (outcome: Outcome)
      requires Valid() && index >= 0
      modifies this
      ensures Valid()
      ensures Transition(Snapshot(), outcome) == ArrowMove(old(Snapshot()), index)
      ensures results == old(results) && layout == old(layout) && emitted == old(emitted)
      ensures generation == old(generation) && inFlight == old(inFlight) && text == old(text)
      ensures focusIndex == index
    {
      ghost var s := Snapshot();
      SetFocus(true);
      focusIndex := index;
      ArrowMoveValid(s, index);
      if index >= |layout.items| {
        return TypeError;
      }
      var item := Geometry.ElementPosition(layout.items[index], layout.viewport);
      var list := Geometry.ElementPosition(layout.dropdown, layout.viewport);
      if item.top < list.top || item.top + item.height > list.top + list.height {
        scrolled := scrolled + [index];
      }
      outcome := Completed;
    }

    /** `_onArrowUp`. */
    method OnArrowUp() returns (outcome: Outcome)
      requires Valid()
      modifies this
      ensures Valid()
      ensures Transition(Snapshot(), outcome) == ArrowUp(old(Snapshot()))
      ensures results == old(results) && layout == old(layout) && emitted == old(emitted)
      ensures generation == old(generation) && inFlight == old(inFlight) && text == old(text)
      ensures |results| > 0 ==> focusIndex == Navigation.NextUp(old(focusIndex), |results|)
    {
      outcome := Completed;
      if |results| > 0 {
        var index := 0;
        if focusIndex == -1 || focusIndex == 0 {
          index := |results| - 1;
        } else {
          index := focusIndex - 1;
        }
        outcome := OnArrowMove(index);
      }
    }

    /** `_onArrowDown`. */
    method OnArrowDown() returns (outcome: Outcome)
      requires Valid()
      modifies this
      ensures Valid()
      ensures Transition(Snapshot(), outcome) == ArrowDown(old(Snapshot()))
      ensures results == old(results) && layout == old(layout) && emitted == old(emitted)
      ensures generation == old(generation) && inFlight == old(inFlight) && text == old(text)
      ensures |results| > 0 ==> focusIndex == Navigation.NextDown(old(focusIndex), |results|)
    {
      outcome := Completed;
      if |results| > 0 {
        var index := 0;
        if focusIndex == |results| - 1 || focusIndex == -1 {
          index := 0;
        } else {
          index := focusIndex + 1;
        }
        outcome := OnArrowMove(index);
      }
    }

    /** `onKeyUp` with key code `which`; `typed` is the text box content the template passes. */
    method OnKeyUp(which: int, typed: string) returns (outcome: Outcome)
      requires Valid()
      modifies this
      ensures Valid()
      ensures Transition(Snapshot(), outcome) == KeyUp(old(Snapshot()), which, typed)
      ensures which == 13 && old(0 <= focusIndex < |results|) ==> var r := old(results[focusIndex]);
        outcome == Completed && emitted == old(emitted) + [Selection(r.id, Str(r.text))] && text == Str(r.text)
      ensures which == 13 && old(focusIndex != -1 && !(0 <= focusIndex < |results|)) ==>
        outcome == TypeError && emitted == old(emitted)
      ensures which == 13 && outcome == Completed ==> !ddOpen && !hasFocus && focusIndex == -1
    {
      outcome := Completed;
      if which == 13 {
        outcome := OnEnter(typed);
      } else if which == 27 {
        OnEscape();
      }
    }

    /** `onKeyDown` with key code `which`. */
    method OnKeyDown(which: int) returns (outcome: Outcome)
      requires Valid()
      modifies this
      ensures Valid()
      ensures Transition(Snapshot(), outcome) == KeyDown(old(Snapshot()), which)
      ensures results == old(results) && layout == old(layout) && emitted == old(emitted)
      ensures generation == old(generation) && inFlight == old(inFlight) && text == old(text)
      ensures which == 38 && |results| > 0 ==> focusIndex == Navigation.NextUp(old(focusIndex), |results|)
      ensures which == 40 && |results| > 0 ==> focusIndex == Navigation.NextDown(old(focusIndex), |results|)
    {
      outcome := Completed;
      if which == 38 {
        outcome := OnArrowUp();
      } else if which == 40 {
        outcome := OnArrowDown();
      }
    }

    /** The debounce window closes on the latest term: `distinctUntilChanged`, then the `map`
        stage and the start of the search. */
    method DebounceElapsed()
      requires Valid()
      modifies this
      ensures Valid() && Snapshot() == DebounceFire(old(Snapshot()))
    {
      ghost var s := Snapshot();
      FilterAndStart();
      DebounceFireValid(s);
    }

    /** The operator chain behind `DebounceElapsed`, without the invariant. */
    method FilterAndStart()
      modifies this
      ensures Snapshot() == DebounceFire(old(Snapshot()))
    {
      if pending.Some? {
        var term := pending.value;
        var admitted := SearchPipeline.Admits(lastAccepted, term);
        pending := None;
        fired := fired + [term];
        if admitted {
          lastAccepted := Some(term);
          accepted := accepted + [term];
          inFlight := Some(term);
          loading := true;
          focusIndex := -1;
        }
      }
    }

    /** A batch from the search started in generation `tag` reaches the inner `map` stage,
        unless `takeUntil` has already ended that search. */
    method DeliverBatch(tag: nat, batch: seq<SearchResult>)
      requires Valid()
      modifies this
      ensures Valid() && Snapshot() == WidgetState.DeliverBatch(old(Snapshot()), tag, batch)
    {
      ghost var s := Snapshot();
      if inFlight.Some? && tag == generation {
        loading := false;
        results := batch;
        SetDropdown(hasFocus && |results| > 0);
      }
      DeliverBatchValid(s, tag, batch);
    }
  }
}
