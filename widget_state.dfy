/** The autocomplete component as a state machine over the values of its fields. Each
    function is one entry point of the component, its statements taken in the order the
    component runs them; the class in module AutoComplete is proved to perform exactly
    these transitions, and the lemmas here state what the component promises about them. */
module WidgetState {
  import opened Types
  import Geometry
  import Navigation
  import Strings
  import SearchPipeline

  /** How an entry point ends: normally, or with the TypeError JavaScript raises when it reads
      a result or a list item that does not exist. */
  datatype Outcome = Completed | TypeError

  /** The dropdown portal: how often the dropdown container was appended to and removed from
      the document body, and the `style.top` / `style.left` written at the last attach. */
  datatype Portal = Portal(attaches: nat, detaches: nat, top: real, left: real)

  /** Every field of the component: the subjects `_hasFocus`, `_loading`, `_focusIndex`,
      `_ddOpen`, `_result`, `_searchTerm`; the text control's value; the selections emitted on
      `dataSelected`; the DOM geometry it reads; the portal; the indices of the items scrolled
      into view; and the search pipeline's bookkeeping. */
  datatype State = State(
    hasFocus: bool,
    loading: bool,
    focusIndex: int,
    ddOpen: bool,
    results: seq<SearchResult>,
    searchTerm: Term,
    text: Term,
    emitted: seq<Selection>,
    layout: Geometry.Layout,
    portal: Portal,
    scrolled: seq<nat>,
    pipe: SearchPipeline.Pipeline)

  datatype Transition = Transition(state: State, outcome: Outcome)

  /** Everything that reaches the component from outside. */
  datatype Event =
    | DefaultText(value: Term)
    | TextBoxClicked
    | TextChanged(typedText: string)
    | Blurred
    | ClickedOutside
    | ButtonClicked
    | DropdownClicked(key: Option<string>, dataValue: Term)
    | KeyReleased(which: int, typed: string)
    | KeyPressed(which: int)
    | DebounceElapsed
    | BatchArrived(tag: nat, batch: seq<SearchResult>)
    | Rendered(layout: Geometry.Layout)

  /** The value `dropdownOpen$` derives: the input has focus and there are results. */
  predicate DropdownOpen(hasFocus: bool, results: seq<SearchResult>)
  {
    hasFocus && |results| > 0
  }

  /** The invariant the component keeps, except for the dropdown flag, which lags while an
      entry point is between changing the focus or the results and calling `setDropdown`. */
  ghost predicate Consistent(s: State)
  {
    && s.focusIndex >= -1
    && s.portal.attaches == s.portal.detaches + (if s.ddOpen then 1 else 0)
    && SearchPipeline.Valid(s.pipe, s.searchTerm)
  }

  /** The invariant between entry points: the dropdown is attached exactly when the input
      has focus and there are results. */
  ghost predicate Valid(s: State)
  {
    Consistent(s) && s.ddOpen == DropdownOpen(s.hasFocus, s.results)
  }

  /** The component as constructed: nothing focused, no results, an empty search term waiting
      for the debounce window, a `null` text control. */
  function Initial(layout: Geometry.Layout): State
  {
    State(false, false, -1, false, [], Str(""), Null, [], layout,
          Portal(0, 0, 0.0, 0.0), [], SearchPipeline.Initial())
  }

  // ---------------------------------------------------------------- dropdown portal

  /** `setDropdown(show)`: attach and position the dropdown on a closed-to-open edge, detach
      it on an open-to-closed edge, and record the new flag. */
  function SetDropdown(s: State, show: bool): State
  {
    if show then
      if s.ddOpen then s
      else
        var box := Geometry.ElementPosition(s.layout.searchBox, s.layout.viewport);
        s.(ddOpen := true,
           portal := Portal(s.portal.attaches + 1, s.portal.detaches, box.top + box.height, box.left))
    else if s.ddOpen then
      s.(ddOpen := false, portal := s.portal.(detaches := s.portal.detaches + 1))
    else
      s
  }

  /** What `dropdownOpen$` does whenever the focus or the results change. */
  function Sync(s: State): State
  {
    SetDropdown(s, DropdownOpen(s.hasFocus, s.results))
  }

  // ---------------------------------------------------------------- entry points

  /** `_searchTerm.next(t)`. */
  function PushTerm(s: State, t: Term): State
  {
    s.(searchTerm := t, pipe := SearchPipeline.Push(s.pipe, t))
  }

  /** `_reset`: lose focus (closing the dropdown), stop loading, focus nothing. `onBlur`,
      `_onEscape` and `outsideClick` do exactly this. */
  function Reset(s: State): State
  {
    Sync(s.(hasFocus := false)).(loading := false, focusIndex := -1)
  }

  /** The `defaultSearchText` input: fill the text box and search for the value. */
  function SetDefaultSearchText(s: State, value: Term): State
  {
    PushTerm(s.(text := value), value)
  }

  /** `onTextBoxClick`: search again for the text box's value and take focus. */
  function TextBoxClick(s: State): State
  {
    Sync(PushTerm(s, s.text).(hasFocus := true))
  }

  /** The user types `value` (the form control takes it), then `onTextChange(value)`. */
  function TextChange(s: State, value: string): State
  {
    PushTerm(Sync(s.(text := Str(value), hasFocus := true)), Str(value))
  }

  /** `onBtnClick`: emit the typed text as a free-text selection unless it is `null` or its
      `trim()` is empty. */
  function ButtonClick(s: State): State
  {
    if s.text.Str? && Strings.Trim(s.text.chars) != [] then
      s.(emitted := s.emitted + [Selection(None, s.text)])
    else
      s
  }

  /** `onDropdownClick`: a click on an element carrying a non-empty `data-key` resets, emits
      `{id: key, text: value}` and sets the text box without pushing a search term. */
  function DropdownClick(s: State, key: Option<string>, value: Term): State
  {
    if key.Some? && key.value != "" then
      var r := Reset(s);
      r.(emitted := r.emitted + [Selection(key, value)], text := value)
    else
      s
  }

  /** `_onEnter(text)`: with an item focused, put its text in the box and emit a copy of it;
      with nothing focused, emit `{id: null, text}`; then reset. A focus index that names no
      result makes `_result.value[i].text` throw before anything has changed. */
  function Enter(s: State, typed: string): Transition
  {
    if s.focusIndex != -1 then
      if 0 <= s.focusIndex < |s.results| then
        var r := s.results[s.focusIndex];
        Transition(Reset(s.(text := Str(r.text), emitted := s.emitted + [Selection(r.id, Str(r.text))])), Completed)
      else
        Transition(s, TypeError)
    else
      Transition(Reset(s.(emitted := s.emitted + [Selection(None, Str(typed))])), Completed)
  }

  /** `_onArrowMove(index)`: take focus, focus item `index`, and scroll it into view when it
      lies outside the dropdown. With no rendered item at that index `querySelector` yields
      `null` and reading its rectangle throws, after focus and index were already set. */
  function ArrowMove(s: State, index: int): Transition
  {
    var focused := Sync(s.(hasFocus := true)).(focusIndex := index);
    if 0 <= index < |s.layout.items| then
      var item := Geometry.ElementPosition(s.layout.items[index], s.layout.viewport);
      var list := Geometry.ElementPosition(s.layout.dropdown, s.layout.viewport);
      if Geometry.ScrollNeeded(item, list) then
        Transition(focused.(scrolled := focused.scrolled + [index]), Completed)
      else
        Transition(focused, Completed)
    else
      Transition(focused, TypeError)
  }

  /** `_onArrowUp`: nothing happens without results. */
  function ArrowUp(s: State): Transition
  {
    if |s.results| > 0 then ArrowMove(s, Navigation.NextUp(s.focusIndex, |s.results|))
    else Transition(s, Completed)
  }

  /** `_onArrowDown`: nothing happens without results. */
  function ArrowDown(s: State): Transition
  {
    if |s.results| > 0 then ArrowMove(s, Navigation.NextDown(s.focusIndex, |s.results|))
    else Transition(s, Completed)
  }

  /** `onKeyUp`: Enter (13) and Escape (27). */
  function KeyUp(s: State, which: int, typed: string): Transition
  {
    if which == 13 then Enter(s, typed)
    else if which == 27 then Transition(Reset(s), Completed)
    else Transition(s, Completed)
  }

  /** `onKeyDown`: arrow up (38) and arrow down (40). */
  function KeyDown(s: State, which: int): Transition
  {
    if which == 38 then ArrowUp(s)
    else if which == 40 then ArrowDown(s)
    else Transition(s, Completed)
  }

  /** The debounce window closes: an accepted term sets `loading` and clears the focus index
      (the `map` stage), and its search starts. */
  function DebounceFire(s: State): State
  {
    if SearchPipeline.Accepts(s.pipe) then
      s.(pipe := SearchPipeline.Fire(s.pipe), loading := true, focusIndex := -1)
    else
      s.(pipe := SearchPipeline.Fire(s.pipe))
  }

  /** A result batch from the search started in generation `tag`: while that search is
      still subscribed it clears `loading` and replaces the results; otherwise it is lost. */
  function DeliverBatch(s: State, tag: nat, batch: seq<SearchResult>): State
  {
    if SearchPipeline.Live(s.pipe, tag) then Sync(s.(loading := false, results := batch))
    else s
  }

  /** One event. */
  function Step(s: State, e: Event): Transition
  {
    match e
    case DefaultText(v) => Transition(SetDefaultSearchText(s, v), Completed)
    case TextBoxClicked => Transition(TextBoxClick(s), Completed)
    case TextChanged(v) => Transition(TextChange(s, v), Completed)
    case Blurred => Transition(Reset(s), Completed)
    case ClickedOutside => Transition(Reset(s), Completed)
    case ButtonClicked => Transition(ButtonClick(s), Completed)
    case DropdownClicked(k, v) => Transition(DropdownClick(s, k, v), Completed)
    case KeyReleased(w, t) => KeyUp(s, w, t)
    case KeyPressed(w) => KeyDown(s, w)
    case DebounceElapsed => Transition(DebounceFire(s), Completed)
    case BatchArrived(tag, b) => Transition(DeliverBatch(s, tag, b), Completed)
    case Rendered(l) => Transition(s.(layout := l), Completed)
  }

  /** A sequence of events, each applied to the state the previous one left. */
  function Run(s: State, es: seq<Event>): State
    decreases |es|
  {
    if es == [] then s else Run(Step(s, es[0]).state, es[1..])
  }

  // ---------------------------------------------------------------- the dropdown

  /** After `setDropdown(show)` the flag equals `show`; the dropdown is attached only on a
      closed-to-open edge and detached only on an open-to-closed edge; nothing else changes
      but the portal. */
  lemma SetDropdownEdges(s: State, show: bool)
    ensures var t := SetDropdown(s, show);
      && t.ddOpen == show
      && t.portal.attaches == s.portal.attaches + (if show && !s.ddOpen then 1 else 0)
      && t.portal.detaches == s.portal.detaches + (if !show && s.ddOpen then 1 else 0)
      && t.(ddOpen := s.ddOpen, portal := s.portal) == s
  {
  }

  /** A repeated `setDropdown` does nothing: opening twice attaches once, closing twice
      detaches once. */
  lemma SetDropdownIdempotent(s: State, show: bool)
    ensures SetDropdown(SetDropdown(s, show), show) == SetDropdown(s, show)
  {
  }

  /** On attach the dropdown is placed at the bottom-left corner of the text box's page box;
      while it stays open a changed layout does not move it. */
  lemma DropdownPlacedOnAttach(s: State, layout: Geometry.Layout)
    ensures !s.ddOpen ==>
      var box := Geometry.ElementPosition(s.layout.searchBox, s.layout.viewport);
      SetDropdown(s, true).portal.top == box.top + box.height
      && SetDropdown(s, true).portal.left == box.left
    ensures s.ddOpen ==> SetDropdown(s.(layout := layout), true).portal == s.portal
  {
  }

  /** Attaching and detaching keep the count of attached copies at zero or one. */
  lemma SetDropdownConsistent(s: State, show: bool)
    requires Consistent(s)
    ensures Consistent(SetDropdown(s, show))
  {
  }

  lemma SyncValid(s: State)
    requires Consistent(s)
    ensures Valid(Sync(s))
  {
    SetDropdownConsistent(s, DropdownOpen(s.hasFocus, s.results));
  }

  // ---------------------------------------------------------------- reset and selection

  /** `_reset` returns to the idle state: no focus, not loading, nothing focused, dropdown
      closed; results, term, text, emissions and the search pipeline are untouched. */
  lemma ResetIsIdle(s: State)
    ensures var t := Reset(s);
      && !t.hasFocus && !t.loading && t.focusIndex == -1 && !t.ddOpen
      && t.results == s.results && t.searchTerm == s.searchTerm && t.text == s.text
      && t.emitted == s.emitted && t.pipe == s.pipe && t.scrolled == s.scrolled
      && t.portal.attaches == s.portal.attaches
      && t.portal.detaches == s.portal.detaches + (if s.ddOpen then 1 else 0)
  {
  }

  /** Blurring an idle component changes nothing more. */
  lemma ResetIdempotent(s: State)
    ensures Reset(Reset(s)) == Reset(s)
  {
  }

  /** Blur, Escape and a click outside all end in the same reset. */
  lemma {:induction false} DismissalsAgree(s: State, typed: string)
    ensures Step(s, Blurred) == Step(s, ClickedOutside) == KeyUp(s, 27, typed)
    ensures Step(s, Blurred).state == Reset(s)
  {
  }

  /** Enter on a focused result selects it: the text box shows its text, a copy of it is
      emitted, and the component resets. */
  lemma EnterSelectsFocused(s: State, typed: string)
    requires 0 <= s.focusIndex < |s.results|
    ensures var t := Enter(s, typed); var r := s.results[s.focusIndex];
      && t.outcome == Completed
      && t.state.emitted == s.emitted + [Selection(r.id, Str(r.text))]
      && t.state.text == Str(r.text)
      && t.state == Reset(s).(text := Str(r.text), emitted := s.emitted + [Selection(r.id, Str(r.text))])
  {
  }

  /** Enter with nothing focused emits the typed text with a `null` id and resets; the text
      box keeps its value. */
  lemma EnterFreeText(s: State, typed: string)
    requires s.focusIndex == -1
    ensures var t := Enter(s, typed);
      && t.outcome == Completed
      && t.state.emitted == s.emitted + [Selection(None, Str(typed))]
      && t.state == Reset(s).(emitted := s.emitted + [Selection(None, Str(typed))])
  {
  }

  /** Enter with a focus index that names no result throws and changes nothing. */
  lemma EnterStaleIndex(s: State, typed: string)
    requires s.focusIndex != -1 && !(0 <= s.focusIndex < |s.results|)
    ensures Enter(s, typed) == Transition(s, TypeError)
  {
  }

  /** The confirm button emits `{id: null, text}` exactly when the text is present and not
      blank, and otherwise changes nothing; it never resets. */
  lemma {:induction false} ButtonClickGuard(s: State)
    ensures s.text.Str? && !Strings.IsBlank(s.text.chars) ==>
      ButtonClick(s) == s.(emitted := s.emitted + [Selection(None, s.text)])
    ensures !s.text.Str? || Strings.IsBlank(s.text.chars) ==> ButtonClick(s) == s
  {
    if s.text.Str? {
      Strings.TrimEmptyIffBlank(s.text.chars);
    }
  }

  /** A dropdown click on a keyed element selects `{id: key, text: value}`, writes the text box
      and resets, but starts no search: the term and the pipeline are untouched. Without a
      key nothing happens. */
  lemma DropdownClickSelects(s: State, key: Option<string>, value: Term)
    ensures key.Some? && key.value != "" ==>
      var t := DropdownClick(s, key, value);
      && t.emitted == s.emitted + [Selection(key, value)]
      && t.text == value && t.searchTerm == s.searchTerm && t.pipe == s.pipe
      && !t.hasFocus && !t.loading && t.focusIndex == -1 && !t.ddOpen
    ensures key.None? || key.value == "" ==> DropdownClick(s, key, value) == s
  {
  }

  /** Only Enter, a confirm click with text and a keyed dropdown click emit; every other event
      leaves the emitted selections as they were, and those three add exactly one. */
  lemma EmitsAtMostOne(s: State, e: Event)
    ensures var t := Step(s, e).state;
      t.emitted == s.emitted || (|t.emitted| == |s.emitted| + 1 && t.emitted[..|s.emitted|] == s.emitted)
    ensures !(e.KeyReleased? || e.ButtonClicked? || e.DropdownClicked?) ==> Step(s, e).state.emitted == s.emitted
  {
    match e
    case KeyReleased(w, t) =>
    case ButtonClicked =>
    case DropdownClicked(k, v) =>
    case _ =>
  }

  // ---------------------------------------------------------------- keyboard

  /** Keys other than Enter and Escape on key-up, and other than the two arrows on key-down,
      change nothing. */
  lemma OtherKeysIgnored(s: State, which: int, typed: string)
    ensures which != 13 && which != 27 ==> KeyUp(s, which, typed) == Transition(s, Completed)
    ensures which != 38 && which != 40 ==> KeyDown(s, which) == Transition(s, Completed)
  {
  }

  /** With no results the arrows change nothing at all. */
  lemma ArrowsIdleWithoutResults(s: State)
    requires |s.results| == 0
    ensures ArrowUp(s) == ArrowDown(s) == Transition(s, Completed)
    ensures KeyDown(s, 38) == KeyDown(s, 40) == Transition(s, Completed)
  {
  }

  /** With results and an index in range (or none), an arrow focuses an item in range, takes
      focus and opens the dropdown; the results are untouched. It throws only when the
      chosen item is not rendered. */
  lemma ArrowMovesWithinResults(s: State)
    requires Valid(s) && |s.results| > 0 && s.focusIndex < |s.results|
    ensures var n := |s.results|;
      forall t :: t == ArrowUp(s) || t == ArrowDown(s) ==>
        && 0 <= t.state.focusIndex < n
        && t.state.hasFocus && t.state.ddOpen && t.state.results == s.results
        && (t.outcome == TypeError <==> t.state.focusIndex >= |s.layout.items|)
    ensures ArrowUp(s).state.focusIndex == Navigation.NextUp(s.focusIndex, |s.results|)
    ensures ArrowDown(s).state.focusIndex == Navigation.NextDown(s.focusIndex, |s.results|)
  {
    Navigation.MoveStaysInRange(s.focusIndex, |s.results|);
  }

  /** An item is recorded as scrolled into view exactly when it is rendered and lies above or
      below the dropdown. */
  lemma ArrowScrollsWhenOutside(s: State, index: int)
    ensures var t := ArrowMove(s, index);
      if 0 <= index < |s.layout.items|
         && Geometry.ScrollNeeded(Geometry.ElementPosition(s.layout.items[index], s.layout.viewport),
                                  Geometry.ElementPosition(s.layout.dropdown, s.layout.viewport))
      then t.state.scrolled == s.scrolled + [index]
      else t.state.scrolled == s.scrolled
  {
  }

  /** Up after down (and down after up) returns to the focused item. */
  lemma {:induction false} ArrowsUndoEachOther(s: State)
    requires Valid(s) && 0 <= s.focusIndex < |s.results|
    ensures ArrowUp(ArrowDown(s).state).state.focusIndex == s.focusIndex
    ensures ArrowDown(ArrowUp(s).state).state.focusIndex == s.focusIndex
  {
    var n := |s.results|;
    Navigation.UpDownInverse(s.focusIndex, n);
    assert ArrowDown(s).state.results == s.results;
    assert ArrowUp(s).state.results == s.results;
  }

  // ---------------------------------------------------------------- search

  /** An accepted term sets `loading` and clears the focus index, and a search for it becomes
      live; a term equal to the last accepted one is dropped and leaves the view alone. */
  lemma DebounceAcceptsNewTerms(s: State)
    requires Valid(s) && s.pipe.pending.Some?
    ensures var t := DebounceFire(s); var term := s.pipe.pending.value;
      if SearchPipeline.Admits(s.pipe.lastAccepted, term) then
        && t.loading && t.focusIndex == -1 && t.pipe.inFlight == Some(term)
        && t.pipe.lastAccepted == Some(term)
        && t.(loading := s.loading, focusIndex := s.focusIndex, pipe := s.pipe) == s
      else
        && t.pipe.inFlight == s.pipe.inFlight && t.pipe.pending.None?
        && t.(pipe := s.pipe) == s
  {
  }

  /** `null` and `undefined` are different terms to `distinctUntilChanged`: after a search
      for the untouched (`null`) text box, a click on a keyed item without `data-value` sets
      the box to `undefined`, and a click on the box then starts a new search. */
  lemma UndefinedAfterNullIsNewTerm(s: State, key: string)
    requires Valid(s) && s.pipe.lastAccepted == Some(Null) && key != ""
    ensures var t := DebounceFire(TextBoxClick(DropdownClick(s, Some(key), Undefined)));
      t.loading && t.focusIndex == -1 && t.pipe.inFlight == Some(Undefined)
  {
  }

  /** A batch for the live search clears `loading`, replaces the results and re-derives the
      dropdown; the focus index is left as it was, even when it no longer names a result. */
  lemma BatchForLiveSearch(s: State, tag: nat, batch: seq<SearchResult>)
    requires SearchPipeline.Live(s.pipe, tag)
    ensures var t := DeliverBatch(s, tag, batch);
      && !t.loading && t.results == batch
      && t.ddOpen == DropdownOpen(s.hasFocus, batch)
      && t.focusIndex == s.focusIndex && t.hasFocus == s.hasFocus
  {
  }

  /** A batch from a superseded search has no effect at all. */
  lemma StaleBatchIgnored(s: State, tag: nat, batch: seq<SearchResult>)
    requires tag < s.pipe.generation
    ensures DeliverBatch(s, tag, batch) == s
  {
  }

  /** Any push of a term, even one the distinct stage will later drop, ends the live search:
      no batch is observed until a new term is accepted. */
  lemma PushEndsLiveSearch(s: State, t: Term, tag: nat, batch: seq<SearchResult>)
    ensures DeliverBatch(PushTerm(s, t), tag, batch) == PushTerm(s, t)
    ensures forall tag' :: !SearchPipeline.Live(TextBoxClick(s).pipe, tag')
  {
  }

  /** The generation never goes back. */
  lemma StepGenerationMonotone(s: State, e: Event)
    ensures Step(s, e).state.pipe.generation >= s.pipe.generation
  {
    match e
    case DebounceElapsed =>
    case _ =>
  }

  lemma {:induction false} RunGenerationMonotone(s: State, es: seq<Event>)
    ensures Run(s, es).pipe.generation >= s.pipe.generation
    decreases |es|
  {
    if es != [] {
      StepGenerationMonotone(s, es[0]);
      RunGenerationMonotone(Step(s, es[0]).state, es[1..]);
    }
  }

  /** Last term wins: once a search is superseded, its batches are lost whatever happens
      afterwards, however late they arrive. */
  lemma {:induction false} SupersededStaysLost(s: State, es: seq<Event>, tag: nat, batch: seq<SearchResult>)
    requires tag < s.pipe.generation
    ensures DeliverBatch(Run(s, es), tag, batch) == Run(s, es)
  {
    RunGenerationMonotone(s, es);
  }

  /** The events of typing each string of `ts` in turn. */
  function Burst(ts: seq<string>): (es: seq<Event>)
    ensures |es| == |ts| && forall i :: 0 <= i < |ts| ==> es[i] == TextChanged(ts[i])
  {
    if ts == [] then [] else [TextChanged(ts[0])] + Burst(ts[1..])
  }

  /** Keystrokes inside one debounce window hand nothing to the search: only the last term
      waits in the debounce slot, and the distinct stage has seen nothing new. */
  lemma {:induction false} BurstKeepsOnlyLast(s: State, ts: seq<string>)
    requires |ts| > 0
    ensures var t := Run(s, Burst(ts));
      && t.pipe.pending == Some(Str(ts[|ts| - 1]))
      && t.pipe.fired == s.pipe.fired && t.pipe.lastAccepted == s.pipe.lastAccepted
      && t.pipe.inFlight.None? && t.searchTerm == Str(ts[|ts| - 1])
    decreases |ts|
  {
    var es := Burst(ts);
    assert es[1..] == Burst(ts[1..]);
    var s1 := Step(s, es[0]).state;
    assert s1 == TextChange(s, ts[0]);
    if |ts| > 1 {
      BurstKeepsOnlyLast(s1, ts[1..]);
    } else {
      assert es[1..] == [];
    }
  }

  /** So when the window closes after a burst, exactly one term reaches the distinct stage:
      the last one typed. */
  lemma BurstSearchesLast(s: State, ts: seq<string>)
    requires |ts| > 0
    ensures var t := DebounceFire(Run(s, Burst(ts)));
      t.pipe.fired == s.pipe.fired + [Str(ts[|ts| - 1])]
  {
    BurstKeepsOnlyLast(s, ts);
  }

  // ---------------------------------------------------------------- the invariant

  lemma InitialValid(layout: Geometry.Layout)
    ensures Valid(Initial(layout))
  {
  }

  lemma ResetValid(s: State)
    requires Consistent(s)
    ensures Valid(Reset(s))
  {
    SyncValid(s.(hasFocus := false));
  }

  lemma TextBoxClickValid(s: State)
    requires Valid(s)
    ensures Valid(TextBoxClick(s))
  {
    SearchPipeline.PushPreservesValid(s.pipe, s.searchTerm, s.text);
    SyncValid(PushTerm(s, s.text).(hasFocus := true));
  }

  lemma TextChangeValid(s: State, value: string)
    requires Valid(s)
    ensures Valid(TextChange(s, value))
  {
    var s1 := s.(text := Str(value), hasFocus := true);
    SyncValid(s1);
    SearchPipeline.PushPreservesValid(Sync(s1).pipe, s.searchTerm, Str(value));
  }

  lemma ButtonClickValid(s: State)
    requires Valid(s)
    ensures Valid(ButtonClick(s))
  {
  }

  lemma EnterValid(s: State, typed: string)
    requires Valid(s)
    ensures Valid(Enter(s, typed).state)
  {
    if s.focusIndex != -1 {
      if 0 <= s.focusIndex < |s.results| {
        var r := s.results[s.focusIndex];
        ResetValid(s.(text := Str(r.text), emitted := s.emitted + [Selection(r.id, Str(r.text))]));
      }
    } else {
      ResetValid(s.(emitted := s.emitted + [Selection(None, Str(typed))]));
    }
  }

  lemma ArrowMoveValid(s: State, index: int)
    requires Valid(s) && index >= 0
    ensures Valid(ArrowMove(s, index).state)
  {
    SyncValid(s.(hasFocus := true));
  }

  lemma KeyDownValid(s: State, which: int)
    requires Valid(s)
    ensures Valid(KeyDown(s, which).state)
  {
    if |s.results| > 0 {
      if which == 38 {
        ArrowMoveValid(s, Navigation.NextUp(s.focusIndex, |s.results|));
      } else if which == 40 {
        ArrowMoveValid(s, Navigation.NextDown(s.focusIndex, |s.results|));
      }
    }
  }

  lemma DebounceFireValid(s: State)
    requires Valid(s)
    ensures Valid(DebounceFire(s))
  {
    SearchPipeline.FirePreservesValid(s.pipe, s.searchTerm);
  }

  lemma DeliverBatchValid(s: State, tag: nat, batch: seq<SearchResult>)
    requires Valid(s)
    ensures Valid(DeliverBatch(s, tag, batch))
  {
    SyncValid(s.(loading := false, results := batch));
  }

  /** Every event keeps the invariant, so the dropdown is open exactly while the input has
      focus and there are results, and it is attached at most once. */
  lemma {:induction false} StepPreservesValid(s: State, e: Event)
    requires Valid(s)
    ensures Valid(Step(s, e).state)
  {
    match e
    case DefaultText(v) =>
      SearchPipeline.PushPreservesValid(s.pipe, s.searchTerm, v);
    case TextBoxClicked => TextBoxClickValid(s);
    case TextChanged(v) => TextChangeValid(s, v);
    case Blurred => ResetValid(s);
    case ClickedOutside => ResetValid(s);
    case ButtonClicked =>
    case DropdownClicked(k, v) => ResetValid(s);
    case KeyReleased(w, t) =>
      if w == 13 { EnterValid(s, t); } else { ResetValid(s); }
    case KeyPressed(w) => KeyDownValid(s, w);
    case DebounceElapsed => DebounceFireValid(s);
    case BatchArrived(tag, b) => DeliverBatchValid(s, tag, b);
    case Rendered(l) =>
  }

  lemma {:induction false} RunPreservesValid(s: State, es: seq<Event>)
    requires Valid(s)
    ensures Valid(Run(s, es))
    decreases |es|
  {
    if es != [] {
      StepPreservesValid(s, es[0]);
      RunPreservesValid(Step(s, es[0]).state, es[1..]);
    }
  }
}
