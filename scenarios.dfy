/** Runs of the component as a user and a search function drive it, proved from the
    methods' contracts alone. */
module Scenarios {
  import opened Types
  import Geometry
  import Navigation
  import opened WidgetState
  import opened AutoComplete

  /** A page with no scrolling and two rendered items inside a 100px-high dropdown. */
  function TwoItemPage(): Geometry.Layout
  {
    var view := Geometry.Viewport(0.0, 0.0, 0.0, 0.0);
    Geometry.Layout(view, Geometry.ClientRect(10.0, 20.0, 30.0), Geometry.ClientRect(40.0, 20.0, 100.0),
                    [Geometry.ClientRect(40.0, 20.0, 20.0), Geometry.ClientRect(60.0, 20.0, 20.0)])
  }

  /** The two suggestions the search function returns for "ab". */
  function AbResults(): seq<SearchResult>
  {
    [SearchResult(Some("1"), "abc"), SearchResult(Some("2"), "abd")]
  }

  /** Typing "ab" and receiving two suggestions opens the dropdown with nothing focused. */
  method TypeAndReceive() returns (c: AutoCompleteComponent)
    ensures fresh(c) && c.Valid()
    ensures c.ddOpen && c.hasFocus && c.focusIndex == -1 && !c.loading
    ensures c.results == AbResults() && c.emitted == [] && c.layout == TwoItemPage()
  {
    c := new AutoCompleteComponent(TwoItemPage());
    c.OnTextChange("ab");
    assert c.pending == Some(Str("ab")) && c.lastAccepted.None?;
    c.DebounceElapsed();
    assert c.inFlight == Some(Str("ab"));
    c.DeliverBatch(c.generation, AbResults());
  }

  /** Typing a term the search has not just run, then the debounce window closing: the
      search for it starts. */
  method TypeTerm(c: AutoCompleteComponent, t: string)
    requires c.Valid() && c.lastAccepted != Some(Str(t))
    modifies c
    ensures c.Valid()
    ensures c.results == old(c.results) && c.layout == old(c.layout) && c.emitted == old(c.emitted)
    ensures c.focusIndex == -1 && c.loading && c.inFlight == Some(Str(t)) && c.lastAccepted == Some(Str(t))
    ensures c.generation > old(c.generation)
  {
    c.OnTextChange(t);
    assert c.pending == Some(Str(t)) && c.lastAccepted == old(c.lastAccepted);
    c.DebounceElapsed();
  }

  /** The live search answers. */
  method Receive(c: AutoCompleteComponent, batch: seq<SearchResult>)
    requires c.Valid() && c.inFlight.Some?
    modifies c
    ensures c.Valid()
    ensures c.results == batch && c.layout == old(c.layout) && c.emitted == old(c.emitted) && !c.loading
    ensures c.focusIndex == old(c.focusIndex) && c.lastAccepted == old(c.lastAccepted)
    ensures c.generation == old(c.generation)
  {
    c.DeliverBatch(c.generation, batch);
  }

  /** An answer from a search that an older generation started. */
  method ReceiveLate(c: AutoCompleteComponent, tag: nat, batch: seq<SearchResult>)
    requires c.Valid() && tag < c.generation
    modifies c
    ensures c.Valid() && c.results == old(c.results) && c.loading == old(c.loading)
    ensures c.focusIndex == old(c.focusIndex) && c.layout == old(c.layout) && c.emitted == old(c.emitted)
    ensures c.generation == old(c.generation) && c.inFlight == old(c.inFlight)
    ensures c.lastAccepted == old(c.lastAccepted) && c.pending == old(c.pending)
  {
    c.DeliverBatch(tag, batch);
  }

  /** An arrow key, seen only through the fields a run of key presses depends on. */
  method PressArrow(c: AutoCompleteComponent, which: int) returns (outcome: Outcome)
    requires c.Valid() && (which == 38 || which == 40) && |c.results| > 0
    modifies c
    ensures c.Valid()
    ensures c.results == old(c.results) && c.layout == old(c.layout) && c.emitted == old(c.emitted)
    ensures c.generation == old(c.generation) && c.inFlight == old(c.inFlight) && c.text == old(c.text)
    ensures c.focusIndex == if which == 38 then Navigation.NextUp(old(c.focusIndex), |c.results|)
                            else Navigation.NextDown(old(c.focusIndex), |c.results|)
  {
    outcome := c.OnKeyDown(which);
  }

  /** The Enter key, seen only through what it emits. */
  method PressEnter(c: AutoCompleteComponent, typed: string) returns (outcome: Outcome)
    requires c.Valid()
    modifies c
    ensures c.Valid()
    ensures 0 <= old(c.focusIndex) < |old(c.results)| ==> var r := old(c.results[c.focusIndex]);
      outcome == Completed && c.emitted == old(c.emitted) + [Selection(r.id, Str(r.text))] && c.text == Str(r.text)
    ensures old(c.focusIndex) != -1 && !(0 <= old(c.focusIndex) < |old(c.results)|) ==>
      outcome == TypeError && c.emitted == old(c.emitted)
    ensures outcome == Completed ==> !c.ddOpen && c.focusIndex == -1
  {
    outcome := c.OnKeyUp(13, typed);
  }

  /** From there, three down arrows focus 0, 1 and 0 again. */
  method ArrowDownWraps() returns (indices: seq<int>)
    ensures indices == [0, 1, 0]
  {
    var c := TypeAndReceive();
    var o := PressArrow(c, 40);
    var i0 := c.focusIndex;
    o := PressArrow(c, 40);
    var i1 := c.focusIndex;
    o := PressArrow(c, 40);
    indices := [i0, i1, c.focusIndex];
  }

  /** With the second suggestion focused, Enter emits it, puts its text in the box and closes
      the dropdown. */
  method EnterPicksFocused() returns (outcome: Outcome, picked: seq<Selection>, shown: Term, open: bool)
    ensures outcome == Completed
    ensures picked == [Selection(Some("2"), Str("abd"))] && shown == Str("abd") && !open
  {
    var c := TypeAndReceive();
    var o := PressArrow(c, 38);
    outcome := PressEnter(c, "ab");
    picked, shown, open := c.emitted, c.text, c.ddOpen;
  }

  /** The confirm button with an empty or blank text box emits nothing. */
  method BlankConfirmEmitsNothing() returns (beforeTyping: seq<Selection>, afterBlank: seq<Selection>)
    ensures beforeTyping == [] && afterBlank == []
  {
    var c := new AutoCompleteComponent(TwoItemPage());
    c.OnBtnClick();
    beforeTyping := c.emitted;
    c.OnTextChange(" \t ");
    c.OnBtnClick();
    afterBlank := c.emitted;
  }

  /** A click outside while the dropdown is open closes it and clears the focus without
      emitting anything. */
  method OutsideClickCloses(batch: seq<SearchResult>) returns (openBefore: bool, openAfter: bool,
                                                                focus: int, emitted: seq<Selection>)
    ensures openBefore == (|batch| > 0)
    ensures !openAfter && focus == -1 && emitted == []
  {
    var c := new AutoCompleteComponent(TwoItemPage());
    c.OnTextChange("a");
    c.DebounceElapsed();
    c.DeliverBatch(c.generation, batch);
    openBefore := c.ddOpen;
    c.OutsideClick();
    openAfter, focus, emitted := c.ddOpen, c.focusIndex, c.emitted;
  }

  /** Last term wins, when the live search answers first: whatever the two searches return,
      the results shown are those of the second term, and the older answer arriving later
      changes nothing. */
  method LastTermWins(t1: string, t2: string, first: seq<SearchResult>, second: seq<SearchResult>)
    returns (shownEarly: seq<SearchResult>, shownLate: seq<SearchResult>)
    requires t1 != t2
    ensures shownEarly == second && shownLate == second
  {
    var c := new AutoCompleteComponent(TwoItemPage());
    TypeTerm(c, t1);
    var tag1 := c.generation;
    TypeTerm(c, t2);
    Receive(c, second);
    shownEarly := c.results;
    ReceiveLate(c, tag1, first);
    shownLate := c.results;
  }

  /** Last term wins, when the superseded search answers first: its answer is not shown, and
      the second term's answer then replaces the (still empty) results. */
  method LastTermWinsStaleFirst(t1: string, t2: string, first: seq<SearchResult>, second: seq<SearchResult>)
    returns (shownEarly: seq<SearchResult>, shownLate: seq<SearchResult>)
    requires t1 != t2
    ensures shownEarly == [] && shownLate == second
  {
    var c := new AutoCompleteComponent(TwoItemPage());
    TypeTerm(c, t1);
    var tag1 := c.generation;
    TypeTerm(c, t2);
    ReceiveLate(c, tag1, first);
    shownEarly := c.results;
    Receive(c, second);
    shownLate := c.results;
  }

  /** The focus index is not re-clamped when results are replaced: a down arrow pressed while
      the search for a new term runs focuses an item of the old list, a shorter list then
      arrives, and Enter reads past its end and throws, emitting nothing. */
  method StaleFocusBreaksEnter(a: SearchResult, b: SearchResult, c0: SearchResult)
    returns (focus: int, count: int, outcome: Outcome, emitted: seq<Selection>)
    ensures focus == 1 && count == 1
    ensures outcome == TypeError && emitted == []
  {
    var c := new AutoCompleteComponent(TwoItemPage());
    TypeTerm(c, "a");
    Receive(c, [a, b]);
    TypeTerm(c, "ab");
    var o := PressArrow(c, 40);
    o := PressArrow(c, 40);
    Receive(c, [c0]);
    focus, count := c.focusIndex, |c.results|;
    outcome := PressEnter(c, "ab");
    emitted := c.emitted;
  }

  /** A raw push of the same term ends the running search, and `distinctUntilChanged` does
      not start a new one: the search's answer is lost and `loading` stays set. */
  method RepeatedTermKeepsLoading(batch: seq<SearchResult>) returns (loading: bool, shown: seq<SearchResult>)
    ensures loading && shown == []
  {
    var c := new AutoCompleteComponent(TwoItemPage());
    c.OnTextChange("a");
    c.DebounceElapsed();
    var tag := c.generation;
    c.OnTextBoxClick();
    c.DebounceElapsed();
    c.DeliverBatch(tag, batch);
    c.DeliverBatch(c.generation, batch);
    loading, shown := c.loading, c.results;
  }
}
