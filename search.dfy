/** The bookkeeping of the `searchResult$` pipeline: the debounce slot, the memory of
    `distinctUntilChanged`, and the supersession of searches that `switchMap` together with
    `takeUntil(searchTerm$.pipe(skip(1)))` performs, expressed as a generation counter. */
module SearchPipeline {
  import opened Types

  /** `pending`: the latest raw term waiting for the debounce window to close.
      `lastAccepted`: the previous term `distinctUntilChanged` let through.
      `generation`: the number of raw pushes to `_searchTerm` so far; a batch is tagged with
      the generation its search was started in.
      `inFlight`: the term whose search is still subscribed, if any.
      `fired`, `accepted`: the history of terms the debounce stage emitted and of those the
      distinct stage accepted (model-only record used to state the filter's meaning). */
  datatype Pipeline = Pipeline(
    pending: Option<Term>,
    lastAccepted: Option<Term>,
    generation: nat,
    inFlight: Option<Term>,
    fired: seq<Term>,
    accepted: seq<Term>)

  /** `distinctUntilChanged`: a term passes unless it equals the previously accepted one;
      the first term always passes. */
  predicate Admits<T(==)>(last: Option<T>, t: T)
  {
    last.None? || last.value != t
  }

  /** The last element of a sequence, if any. */
  function Last<T>(xs: seq<T>): Option<T>
  {
    if xs == [] then None else Some(xs[|xs| - 1])
  }

  /** The reference definition of `distinctUntilChanged` over a whole stream. */
  function Dedup<T(==)>(xs: seq<T>): seq<T>
  {
    if xs == [] then []
    else
      var prefix := Dedup(xs[..|xs| - 1]);
      if Admits(Last(prefix), xs[|xs| - 1]) then prefix + [xs[|xs| - 1]] else prefix
  }

  /** Dedup on one more element: the step the stateful filter performs. */
  lemma DedupSnoc<T>(xs: seq<T>, x: T)
    ensures Dedup(xs + [x]) == if Admits(Last(Dedup(xs)), x) then Dedup(xs) + [x] else Dedup(xs)
  {
    assert (xs + [x])[..|xs|] == xs;
  }

  /** No two consecutive accepted terms are equal. */
  lemma {:induction false} DedupNoRepeats<T>(xs: seq<T>)
    ensures forall i :: 0 <= i < |Dedup(xs)| - 1 ==> Dedup(xs)[i] != Dedup(xs)[i + 1]
  {
    if xs != [] {
      DedupNoRepeats(xs[..|xs| - 1]);
    }
  }

  /** The most recent term always ends up as the last accepted one, whether it passed the
      filter or equalled the term before it. */
  lemma {:induction false} DedupKeepsLatest<T>(xs: seq<T>)
    ensures Last(Dedup(xs)) == Last(xs)
  {
    if xs != [] {
      DedupKeepsLatest(xs[..|xs| - 1]);
    }
  }

  /** The positions of the terms of `xs` that pass the filter, in order. */
  function Kept<T(==)>(xs: seq<T>): seq<nat>
  {
    if xs == [] then []
    else
      var n := |xs| - 1;
      if Admits(Last(Dedup(xs[..n])), xs[n]) then Kept(xs[..n]) + [n] else Kept(xs[..n])
  }

  /** `f` embeds `ys` in `xs` in order: `ys[i]` is `xs[f[i]]`, the positions strictly rising. */
  predicate Embeds<T(==)>(f: seq<nat>, ys: seq<T>, xs: seq<T>)
  {
    && |f| == |ys|
    && (forall i :: 0 <= i < |f| ==> f[i] < |xs| && xs[f[i]] == ys[i])
    && (forall i, j :: 0 <= i < j < |f| ==> f[i] < f[j])
  }

  /** The filter only drops terms: the accepted terms are a subsequence of the emitted ones,
      each taken from its own position and in the same order. */
  lemma {:induction false} DedupIsSubsequence<T>(xs: seq<T>)
    ensures Embeds(Kept(xs), Dedup(xs), xs)
    ensures |Dedup(xs)| <= |xs|
    ensures forall y :: y in Dedup(xs) ==> y in xs
  {
    if xs != [] {
      var n := |xs| - 1;
      DedupIsSubsequence(xs[..n]);
      var f := Kept(xs[..n]);
      assert forall i :: 0 <= i < |f| ==> xs[..n][f[i]] == xs[f[i]];
      if Admits(Last(Dedup(xs[..n])), xs[n]) {
        var g := f + [n];
        assert Dedup(xs) == Dedup(xs[..n]) + [xs[n]];
        assert forall i :: 0 <= i < |f| ==> g[i] == f[i];
      }
    }
  }

  /** Filtering twice changes nothing more. */
  lemma {:induction false} DedupIdempotent<T>(xs: seq<T>)
    ensures Dedup(Dedup(xs)) == Dedup(xs)
  {
    if xs != [] {
      var prefix := Dedup(xs[..|xs| - 1]);
      DedupIdempotent(xs[..|xs| - 1]);
      if Admits(Last(prefix), xs[|xs| - 1]) {
        DedupSnoc(prefix, xs[|xs| - 1]);
      }
    }
  }

  /** The pipeline when the component is created: `_searchTerm` starts as `''`, which the
      debounce stage holds until its window closes. */
  function Initial(): Pipeline
  {
    Pipeline(Some(Str("")), None, 0, None, [], [])
  }

  /** What the pipeline keeps true: the histories explain `lastAccepted`, the pending term is
      the current raw term, and a live search is always for the last accepted term. */
  ghost predicate Valid(p: Pipeline, searchTerm: Term)
  {
    && p.accepted == Dedup(p.fired)
    && p.lastAccepted == Last(p.accepted)
    && (p.pending.Some? ==> p.pending.value == searchTerm)
    && (p.inFlight.Some? ==> p.lastAccepted == p.inFlight)
  }

  /** A raw push to `_searchTerm`: the debounce slot now holds `t`, and `takeUntil` ends the
      live search (a new generation begins). */
  function Push(p: Pipeline, t: Term): (q: Pipeline)
    ensures q.generation > p.generation && q.inFlight.None?
    ensures q.pending == Some(t) && q.lastAccepted == p.lastAccepted
  {
    p.(pending := Some(t), generation := p.generation + 1, inFlight := None)
  }

  /** Whether closing the debounce window now hands a term to the search function: one is
      pending and `distinctUntilChanged` lets it through. */
  predicate Accepts(p: Pipeline)
  {
    p.pending.Some? && Admits(p.lastAccepted, p.pending.value)
  }

  /** The debounce window closes: the pending term reaches `distinctUntilChanged`, and an
      accepted term becomes the one whose search is live. */
  function Fire(p: Pipeline): Pipeline
  {
    if p.pending.None? then p
    else
      var t := p.pending.value;
      var q := p.(pending := None, fired := p.fired + [t]);
      if Admits(p.lastAccepted, t) then
        q.(lastAccepted := Some(t), accepted := q.accepted + [t], inFlight := Some(t))
      else
        q
  }

  /** A batch tagged `tag` is observed only while its search is still subscribed. */
  predicate Live(p: Pipeline, tag: nat)
  {
    p.inFlight.Some? && tag == p.generation
  }

  /** A push keeps the invariant, the pending term becoming the new raw term. */
  lemma PushPreservesValid(p: Pipeline, previous: Term, t: Term)
    requires Valid(p, previous)
    ensures Valid(Push(p, t), t)
  {
  }

  /** The debounce/distinct step keeps the invariant; an accepted term is the pending one,
      which is the current raw term, and its search becomes live; otherwise the live search
      is left as it was. */
  lemma FirePreservesValid(p: Pipeline, searchTerm: Term)
    requires Valid(p, searchTerm)
    ensures Valid(Fire(p), searchTerm)
    ensures Fire(p).generation == p.generation && Fire(p).pending.None?
    ensures Accepts(p) ==> p.pending == Some(searchTerm) && Fire(p).inFlight == p.pending
    ensures !Accepts(p) ==> Fire(p).inFlight == p.inFlight
  {
    if p.pending.Some? {
      DedupSnoc(p.fired, p.pending.value);
    }
  }
}
