# Autocomplete component, modelled in Dafny

This project models the core of `AutoCompleteComponent`, an Angular/RxJS autocomplete text box.

The user types into a text box. After a debounce window, a caller-supplied search function is asked for suggestions. A dropdown appears under the box while the box has focus and there are suggestions. The arrow keys move a highlighted index through the list, wrapping at the ends. Enter, a click on a suggestion or a confirm button emits a selection on `dataSelected`. Blur, Escape and a click outside reset the widget. The dropdown is a portal: it is appended to the document body and positioned under the text box on a closed-to-open edge, and removed on an open-to-closed edge.

Modules:

- `Types`: the `Option` type, the values of the text control and search term (`null`, `undefined` or a string, kept apart because `distinctUntilChanged` compares with `===`) and the two records the component handles: a search result `{id, text}` and an emitted selection.
- `Geometry`: `_getElementPosition` as arithmetic over the rectangle and viewport offsets the page supplies, and the scroll test of `_onArrowMove`.
- `Navigation`: the index that `_onArrowDown` and `_onArrowUp` choose.
- `Strings`: JavaScript's `trim()`, used by the blank-text guard of the confirm button.
- `SearchPipeline`: the bookkeeping of `searchResult$`:
  - the debounce slot holds the latest raw term;
  - `distinctUntilChanged` remembers the last accepted term;
  - a generation counter, bumped by every push to `_searchTerm`, stands in for `switchMap` with `takeUntil(searchTerm$.pipe(skip(1)))`: a batch is applied only when its search is still live;
  - ghost histories of the terms fired and accepted, with `Dedup` as the reference definition of `distinctUntilChanged`.
- `WidgetState`: the whole component as a value (`State`), one transition function per entry point in the order the component runs its statements, the invariant `Valid`, and the lemmas that state what the component promises.
- `AutoComplete`: class `AutoCompleteComponent`. It holds the same fields as the component (the subjects, the text control's value, the emitted selections, the portal and the pipeline's bookkeeping). Each entry point is a `modifies this` method proved to perform exactly the matching `WidgetState` transition, so the lemmas about the transitions are facts about the methods.
- `Scenarios`: runs of the class driven the way a user and a search function drive it. They are proved from the methods' contracts alone.

Two kinds of JavaScript exception appear in the model as `Outcome.TypeError`, not as preconditions:

- Enter with a focus index that names no result reads past the end of `_result.value` and throws before it changes anything.
- An arrow move to an index with no rendered `<li>` throws after focus and index were already set.

The focus index is not clamped when a new result list replaces the old one, so "the focus index names a result" is *not* an invariant. `BatchForLiveSearch`, `MoveFromPastTheEnd` and the scenario `StaleFocusBreaksEnter` show how a stale index arises and what Enter then does. `EnterSelectsFocused` requires the index to be in range.

Environment inputs are parameters:

- the page geometry is a `Layout` value, which `Render` replaces;
- the end of the debounce window is the `DebounceElapsed` event;
- a batch from the search function arrives with the generation tag of the search that produced it (`DeliverBatch`).

## Model

| member | source | states |
|---|---|---|
| Geometry.ElementPosition | autocomplete.component.ts:253-262 | `_getElementPosition`: top is the rectangle's top plus the vertical scroll offset less the document's top border, left likewise, height kept; its properties are the Geometry lemmas below |
| Geometry.ScrollNeeded | autocomplete.component.ts:226-228 | the scroll test: the item starts above the dropdown's top or ends below its bottom; characterised by `NoScrollIffInside` |
| Geometry.PositionRoundTrip | autocomplete.component.ts:253-262 | page position is the viewport rectangle shifted by the scroll offset less the document border, and that rectangle can be recovered from it |
| Geometry.ScrollShiftsPosition | autocomplete.component.ts:253-262 | scrolling the page by (dx, dy) moves every page position by exactly (dx, dy) and keeps the height |
| Geometry.ScrollDecisionIgnoresViewport | autocomplete.component.ts:223-228 | the scroll test on page positions gives the same answer as on the raw viewport rectangles, whatever the scroll offsets |
| Geometry.NoScrollIffInside | autocomplete.component.ts:226-228 | an item is not scrolled exactly when it lies wholly inside the dropdown's vertical span |
| Geometry.TallItemScrolls | autocomplete.component.ts:226-228 | an item taller than the dropdown is always scrolled into view |
| Navigation.NextDown | autocomplete.component.ts:211-215 | the index `_onArrowDown` chooses: 0 from -1 or the last index, otherwise one more; its properties are the Navigation lemmas below |
| Navigation.NextUp | autocomplete.component.ts:200-204 | the index `_onArrowUp` chooses: the last index from -1 or 0, otherwise one less |
| Navigation.MoveStaysInRange | autocomplete.component.ts:197-218 | from -1 or any index of a non-empty list, both arrows choose an index of the list |
| Navigation.MoveFromNothingFocused | autocomplete.component.ts:200-212 | down from nothing focused goes to the first item, up goes to the last |
| Navigation.MoveIsCyclic | autocomplete.component.ts:197-218 | over the list, down is (i + 1) mod n and up is (i + n - 1) mod n, so both wrap around |
| Navigation.UpDownInverse | autocomplete.component.ts:197-218 | up undoes down and down undoes up, wraparound included |
| Navigation.MoveFromPastTheEnd | autocomplete.component.ts:208-215 | an index past the end of a shorter list does not wrap: down moves it further out, up steps back by one |
| Strings.Trim | autocomplete.component.ts:128 | `trim()`: both ends stripped of whitespace; characterised by `TrimEmptyIffBlank` and `TrimKeepsInner` |
| Strings.TrimStart | autocomplete.component.ts:128 | the result is a suffix of the input, does not start with whitespace, and only whitespace was removed |
| Strings.TrimEnd | autocomplete.component.ts:128 | the result is a prefix of the input, does not end with whitespace, and only whitespace was removed |
| Strings.TrimEmptyIffBlank | autocomplete.component.ts:128 | `trim()` yields the empty string exactly when every character is whitespace |
| Strings.TrimKeepsInner | autocomplete.component.ts:128 | a string that neither starts nor ends with whitespace is its own trim |
| SearchPipeline.Initial | autocomplete.component.ts:61 | the pipeline at construction: the initial `''` of `_searchTerm` waits in the debounce slot, nothing accepted, no live search |
| SearchPipeline.Accepts | autocomplete.component.ts:142-143 | closing the window now hands a term to the search: one is pending and the distinct stage admits it |
| SearchPipeline.Admits | autocomplete.component.ts:143 | `distinctUntilChanged` lets a term through when nothing was accepted yet or it differs from the last accepted term |
| SearchPipeline.Dedup | autocomplete.component.ts:143 | the filter applied to a whole stream of terms, the reference the stateful stage is proved against |
| SearchPipeline.Kept | autocomplete.component.ts:143 | the positions of the terms that pass the filter, the embedding `DedupIsSubsequence` is about |
| SearchPipeline.Fire | autocomplete.component.ts:142-148 | the debounce window closes: the pending term reaches the distinct stage and, if admitted, becomes the live search; properties in `FirePreservesValid` |
| SearchPipeline.Live | autocomplete.component.ts:149-154 | a batch is seen only while the search that produced it has not been ended by a later push |
| SearchPipeline.DedupSnoc | autocomplete.component.ts:143 | one more term passes `distinctUntilChanged` exactly when it differs from the last term passed |
| SearchPipeline.DedupNoRepeats | autocomplete.component.ts:143 | no two consecutive accepted terms are equal |
| SearchPipeline.DedupKeepsLatest | autocomplete.component.ts:143 | the last term accepted is the last term fired |
| SearchPipeline.DedupIsSubsequence | autocomplete.component.ts:143 | the filter only drops terms: the accepted terms are a subsequence of the emitted ones, each from its own position and in order |
| SearchPipeline.DedupIdempotent | autocomplete.component.ts:143 | filtering an already filtered history changes nothing |
| SearchPipeline.Push | autocomplete.component.ts:152-154 | a push to the search term starts a new generation, ends the live search and fills the debounce slot, keeping the distinct memory |
| SearchPipeline.PushPreservesValid | autocomplete.component.ts:141-154 | a push keeps the pipeline invariant, with the pushed value as the new raw term |
| SearchPipeline.FirePreservesValid | autocomplete.component.ts:141-149 | closing the debounce window keeps the invariant and empties the slot; an accepted term becomes the live search, a rejected one leaves the live search as it was |
| WidgetState.Initial | autocomplete.component.ts:59-66 | the component as constructed; `InitialValid` shows it satisfies the invariant |
| WidgetState.PushTerm | autocomplete.component.ts:152-154 | `_searchTerm.next(t)`: the new raw term, and the pipeline's push |
| WidgetState.SetDefaultSearchText | autocomplete.component.ts:23-26 | the `defaultSearchText` input: set the box, then push the value |
| WidgetState.DropdownOpen | autocomplete.component.ts:166 | the open input: the input has focus and there are results |
| WidgetState.SetDropdown | autocomplete.component.ts:237-252 | `setDropdown`: attach and position on a closed-to-open edge, detach on an open-to-closed edge, record the flag; properties in `SetDropdownEdges` |
| WidgetState.Sync | autocomplete.component.ts:163-171 | `dropdownOpen$` applying `setDropdown` to the open input; properties in `SyncValid` |
| WidgetState.Reset | autocomplete.component.ts:232-236 | `_reset`; properties in `ResetIsIdle` |
| WidgetState.TextBoxClick | autocomplete.component.ts:85-88 | `onTextBoxClick`: push the box's value, then take focus |
| WidgetState.TextChange | autocomplete.component.ts:89-92 | `onTextChange` after the bound control took the value: take focus, then push the value |
| WidgetState.ButtonClick | autocomplete.component.ts:127-131 | `onBtnClick`; properties in `ButtonClickGuard` |
| WidgetState.DropdownClick | autocomplete.component.ts:74-81 | `onDropdownClick`; properties in `DropdownClickSelects` |
| WidgetState.Enter | autocomplete.component.ts:187-196 | `_onEnter`, with the throwing read of line 190; properties in `EnterSelectsFocused`, `EnterFreeText` and `EnterStaleIndex` |
| WidgetState.ArrowMove | autocomplete.component.ts:219-231 | `_onArrowMove`, with the throw for an unrendered item; properties in `ArrowScrollsWhenOutside` |
| WidgetState.ArrowUp | autocomplete.component.ts:197-207 | `_onArrowUp`; properties in `ArrowMovesWithinResults` and `ArrowsIdleWithoutResults` |
| WidgetState.ArrowDown | autocomplete.component.ts:208-218 | `_onArrowDown`; properties in `ArrowMovesWithinResults` and `ArrowsIdleWithoutResults` |
| WidgetState.KeyUp | autocomplete.component.ts:93-106 | `onKeyUp`: 13 is Enter, 27 is Escape; properties in `OtherKeysIgnored` and `DismissalsAgree` |
| WidgetState.KeyDown | autocomplete.component.ts:107-122 | `onKeyDown`: 38 is up, 40 is down; properties in `OtherKeysIgnored` |
| WidgetState.DebounceFire | autocomplete.component.ts:142-148 | the distinct and `map` stages: an accepted term sets loading and clears the focus index; properties in `DebounceAcceptsNewTerms` |
| WidgetState.DeliverBatch | autocomplete.component.ts:155-159 | the inner `map` stage for a live search; properties in `BatchForLiveSearch` and `StaleBatchIgnored` |
| WidgetState.Step | autocomplete.component.ts:74-131 | one event reaching one entry point; properties in `StepPreservesValid` and `EmitsAtMostOne` |
| WidgetState.SetDropdownEdges | autocomplete.component.ts:237-252 | afterwards the flag equals `show`; the dropdown is attached only on a closed-to-open edge and detached only on an open-to-closed edge; nothing but the flag and the portal changes |
| WidgetState.SetDropdownIdempotent | autocomplete.component.ts:237-252 | a repeated open attaches once and a repeated close detaches once |
| WidgetState.DropdownPlacedOnAttach | autocomplete.component.ts:239-243 | on attach the dropdown is placed at the text box's bottom-left corner; while it stays open it is not moved |
| WidgetState.SetDropdownConsistent | autocomplete.component.ts:237-252 | attach and detach keep the number of attached copies at zero or one |
| WidgetState.SyncValid | autocomplete.component.ts:163-171 | after the open derivation the dropdown is open exactly when the input has focus and there are results |
| WidgetState.ResetIsIdle | autocomplete.component.ts:232-236 | reset clears focus, loading and the focus index and closes the dropdown; results, term, text, emissions and the pipeline are untouched |
| WidgetState.ResetIdempotent | autocomplete.component.ts:232-236 | resetting twice is resetting once |
| WidgetState.DismissalsAgree | autocomplete.component.ts:82-84 | blur, a click outside and Escape end in the same reset |
| WidgetState.EnterSelectsFocused | autocomplete.component.ts:187-196 | with the index on a result, Enter sets the text to that result's text, emits a copy of it and resets |
| WidgetState.EnterFreeText | autocomplete.component.ts:192-195 | with nothing focused, Enter emits the typed text with a null id and resets |
| WidgetState.EnterStaleIndex | autocomplete.component.ts:189-190 | with an index that names no result, Enter throws and changes nothing |
| WidgetState.ButtonClickGuard | autocomplete.component.ts:127-131 | the confirm button emits `{id: null, text}` exactly when the text is present and not blank, and otherwise changes nothing |
| WidgetState.DropdownClickSelects | autocomplete.component.ts:74-81 | a keyed click resets, emits `{id: key, text: value}` and sets the text without pushing a search term; without a key nothing happens |
| WidgetState.EmitsAtMostOne | autocomplete.component.ts:74-131 | every event emits at most one selection and keeps the earlier ones; only Enter, the button and a dropdown click emit |
| WidgetState.OtherKeysIgnored | autocomplete.component.ts:93-122 | key codes other than 13 and 27 on key-up, and other than 38 and 40 on key-down, change nothing |
| WidgetState.ArrowsIdleWithoutResults | autocomplete.component.ts:197-218 | with no results both arrows change no state at all |
| WidgetState.ArrowMovesWithinResults | autocomplete.component.ts:197-231 | with results, an arrow focuses an index of the list chosen by the wraparound rule, takes focus and keeps the dropdown open; it throws only when that item is not rendered |
| WidgetState.ArrowScrollsWhenOutside | autocomplete.component.ts:222-230 | an item is scrolled into view exactly when it is rendered and lies above or below the dropdown |
| WidgetState.ArrowsUndoEachOther | autocomplete.component.ts:197-218 | up after down, and down after up, return to the focused item |
| WidgetState.DebounceAcceptsNewTerms | autocomplete.component.ts:142-148 | an accepted term sets loading, clears the focus index and becomes the live search; a repeated term is dropped and leaves the view alone |
| WidgetState.UndefinedAfterNullIsNewTerm | autocomplete.component.ts:143 | after a search for `null`, a keyed click without `data-value` and a click on the box start a new search for `undefined`: the distinct stage tells the two apart |
| WidgetState.BatchForLiveSearch | autocomplete.component.ts:155-159 | a batch for the live search clears loading, replaces the results and re-derives the dropdown, but leaves the focus index as it was |
| WidgetState.StaleBatchIgnored | autocomplete.component.ts:149-159 | a batch from a superseded search changes no state |
| WidgetState.PushEndsLiveSearch | autocomplete.component.ts:152-154 | any push to the term, even one the distinct stage will drop, ends the live search |
| WidgetState.StepGenerationMonotone | autocomplete.component.ts:149-154 | no event decreases the generation |
| WidgetState.RunGenerationMonotone | autocomplete.component.ts:149-154 | no run of events decreases the generation |
| WidgetState.SupersededStaysLost | autocomplete.component.ts:149-162 | once superseded, a search's batches are lost after any later events |
| WidgetState.Burst | autocomplete.component.ts:89-92 | typing each string of a burst is one text-change event per string, in order |
| WidgetState.BurstKeepsOnlyLast | autocomplete.component.ts:141-143 | during a burst nothing reaches the distinct stage and only the last term waits in the debounce slot |
| WidgetState.BurstSearchesLast | autocomplete.component.ts:141-143 | when the window closes after a burst, exactly one term, the last one typed, reaches the distinct stage |
| WidgetState.InitialValid | autocomplete.component.ts:60-66 | the component starts in a state satisfying the invariant |
| WidgetState.ResetValid | autocomplete.component.ts:232-236 | reset restores the invariant |
| WidgetState.TextBoxClickValid | autocomplete.component.ts:85-88 | a click on the text box keeps the invariant |
| WidgetState.TextChangeValid | autocomplete.component.ts:89-92 | typing keeps the invariant |
| WidgetState.ButtonClickValid | autocomplete.component.ts:127-131 | the confirm button keeps the invariant |
| WidgetState.EnterValid | autocomplete.component.ts:187-196 | Enter keeps the invariant, on the error path too |
| WidgetState.ArrowMoveValid | autocomplete.component.ts:219-231 | an arrow move keeps the invariant |
| WidgetState.KeyDownValid | autocomplete.component.ts:107-122 | a key press keeps the invariant |
| WidgetState.DebounceFireValid | autocomplete.component.ts:141-148 | closing the debounce window keeps the invariant |
| WidgetState.DeliverBatchValid | autocomplete.component.ts:149-171 | a batch keeps the invariant |
| WidgetState.StepPreservesValid | autocomplete.component.ts:163-171 | every event keeps the invariant: the dropdown is open exactly while the input has focus and there are results, and is attached at most once |
| WidgetState.RunPreservesValid | autocomplete.component.ts:163-171 | so does every run of events |
| AutoComplete.AutoCompleteComponent.constructor | autocomplete.component.ts:59-70 | the fields hold their initial values: no focus, no results, an empty term waiting for the debounce window, a null text control |
| AutoComplete.AutoCompleteComponent.Render | autocomplete.component.ts:253-256 | the page geometry the component reads changes and nothing else |
| AutoComplete.AutoCompleteComponent.SetDropdown | autocomplete.component.ts:237-252 | performs `WidgetState.SetDropdown` on the fields |
| AutoComplete.AutoCompleteComponent.SetFocus | autocomplete.component.ts:163-171 | sets focus, then derives the open flag from focus and results |
| AutoComplete.AutoCompleteComponent.PushTerm | autocomplete.component.ts:152-154 | performs `WidgetState.PushTerm`: new raw term, new generation, live search ended |
| AutoComplete.AutoCompleteComponent.Reset | autocomplete.component.ts:232-236 | performs `WidgetState.Reset` and restores the invariant |
| AutoComplete.AutoCompleteComponent.SetDefaultSearchText | autocomplete.component.ts:23-26 | sets the text box and pushes the value as the search term |
| AutoComplete.AutoCompleteComponent.OnTextBoxClick | autocomplete.component.ts:85-88 | performs `WidgetState.TextBoxClick` and keeps the invariant |
| AutoComplete.AutoCompleteComponent.OnTextChange | autocomplete.component.ts:89-92 | performs `WidgetState.TextChange` and keeps the invariant |
| AutoComplete.AutoCompleteComponent.OnBlur | autocomplete.component.ts:82-84 | performs the reset |
| AutoComplete.AutoCompleteComponent.OutsideClick | autocomplete.component.ts:123-126 | performs the reset |
| AutoComplete.AutoCompleteComponent.OnEscape | autocomplete.component.ts:183-186 | performs the reset |
| AutoComplete.AutoCompleteComponent.OnBtnClick | autocomplete.component.ts:127-131 | performs `WidgetState.ButtonClick` |
| AutoComplete.AutoCompleteComponent.OnDropdownClick | autocomplete.component.ts:74-81 | performs `WidgetState.DropdownClick` |
| AutoComplete.AutoCompleteComponent.OnEnter | autocomplete.component.ts:187-196 | performs `WidgetState.Enter`: emits the focused result and sets the text, or throws on a stale index with nothing emitted; on completion the dropdown is closed and nothing is focused |
| AutoComplete.AutoCompleteComponent.OnArrowMove | autocomplete.component.ts:219-231 | performs `WidgetState.ArrowMove`; the results, layout, emissions and pipeline are untouched and the index is the one requested |
| AutoComplete.AutoCompleteComponent.OnArrowUp | autocomplete.component.ts:197-207 | performs `WidgetState.ArrowUp`; with results the new index is `NextUp` of the old |
| AutoComplete.AutoCompleteComponent.OnArrowDown | autocomplete.component.ts:208-218 | performs `WidgetState.ArrowDown`; with results the new index is `NextDown` of the old |
| AutoComplete.AutoCompleteComponent.OnKeyUp | autocomplete.component.ts:93-106 | performs `WidgetState.KeyUp`, with Enter's emission facts for code 13 |
| AutoComplete.AutoCompleteComponent.OnKeyDown | autocomplete.component.ts:107-122 | performs `WidgetState.KeyDown`, with the arrows' index facts for codes 38 and 40 |
| AutoComplete.AutoCompleteComponent.DebounceElapsed | autocomplete.component.ts:141-148 | performs `WidgetState.DebounceFire` and keeps the invariant |
| AutoComplete.AutoCompleteComponent.FilterAndStart | autocomplete.component.ts:143-148 | the distinct stage and the `map` stage, performing `WidgetState.DebounceFire` |
| AutoComplete.AutoCompleteComponent.DeliverBatch | autocomplete.component.ts:149-162 | performs `WidgetState.DeliverBatch`: applied only while its search is live |
| Scenarios.TypeAndReceive | autocomplete.component.ts:141-171 | typing "ab" and receiving two results opens the dropdown with nothing focused and nothing emitted |
| Scenarios.ArrowDownWraps | autocomplete.component.ts:208-218 | from there, three down arrows focus 0, 1 and then 0 again |
| Scenarios.EnterPicksFocused | autocomplete.component.ts:187-196 | with the second result focused, Enter emits `{id: "2", text: "abd"}`, sets the text to "abd" and closes the dropdown |
| Scenarios.BlankConfirmEmitsNothing | autocomplete.component.ts:127-131 | the confirm button with an untouched or blank text box emits nothing |
| Scenarios.OutsideClickCloses | autocomplete.component.ts:123-126 | a click outside closes the dropdown and clears the focus index without emitting |
| Scenarios.LastTermWins | autocomplete.component.ts:149-162 | after two different terms, when the live search answers first, the results shown are the second term's, and the older answer arriving later changes nothing |
| Scenarios.LastTermWinsStaleFirst | autocomplete.component.ts:149-162 | after two different terms, when the superseded search answers first, its answer is not shown, and the second term's answer is |
| Scenarios.StaleFocusBreaksEnter | autocomplete.component.ts:155-159 | an arrow pressed while a new search runs, followed by a shorter result list, leaves the index past the end, and Enter then throws and emits nothing |
| Scenarios.RepeatedTermKeepsLoading | autocomplete.component.ts:152-154 | clicking the box during a search for the same term ends that search, and the distinct stage starts none, so loading stays set and no results arrive |

## Left out

- DOM manipulation: `appendChild`/`removeChild` on the body, `style.top`/`style.left`, `querySelector` and `scrollIntoView`. These are modelled as the attach and detach counters and the last written position (`Portal`), the `Layout` value, and the list of scrolled indices.
- The 200 ms timer of `debounceTime`. Its expiry is the `DebounceElapsed` event, which hands on the latest pending term.
- The RxJS and Angular machinery: `BehaviorSubject`, `combineLatest` re-emission, `EventEmitter`, `FormControl`, decorators and change detection. These are direct field updates and a sequence of emitted selections. The two-way `[formControl]` binding is modelled by `TextChange` writing the text before `onTextChange` runs.
- The caller-supplied `searchCallBack`: a batch of results arrives together with the generation tag of its search. A search that fails is not modelled: the source has no `catchError`, so a failing search would end `searchResult$` for good.
- `vm$`, `dropdownVm$`, the placeholder input and `trackById`: view projections with no state of their own. `dropdownVm$` subscribes to `searchResult$` a second time. The model treats the search pipeline as subscribed once.
- `ngAfterViewInit` and `dropdownWidth`: a layout width with no effect on the modelled state.
- `stopPropagation`/`preventDefault`: they only affect event bubbling.
- Floating-point pixel arithmetic: positions are `real`.
- `combineLatest` waits for the first result batch before deriving the open flag. The model derives it from the start, which agrees because until then there are no results and the dropdown is closed.
