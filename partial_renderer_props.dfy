/** Properties of a partial rendering pass, stated on the specification
    functions that PartialRenderer.PartialRender is proved against. */
module PartialRendererProps {
  import opened RenderingModel
  import opened RenderResults
  import opened PartialRenderer

  // ---------------------------------------------------------------------------
  // Wrapping a page into a stand-alone document

  lemma UnwrapWrap(s: string)
    ensures |Wrap(s)| >= |StartMarker| + |EndMarker|
    ensures Unwrap(Wrap(s)) == s
  {
    var w := Wrap(s);
    assert w[|StartMarker|..|w| - |EndMarker|] == s;
  }

  /** Comparing wrapped sources is comparing page texts. */
  lemma WrapInjective(a: string, b: string)
    ensures Wrap(a) == Wrap(b) <==> a == b
  {
    UnwrapWrap(a);
    UnwrapWrap(b);
  }

  /** With a cached copy of the page, the page is obsolete exactly when a flag,
      the rendering type or the zoom says so, or its text changed. */
  lemma ObsoleteIffChanged(req: RenderRequest, cache: Option<RenderCacheItem>, s: string, page: int, previous: string)
    requires cache.Some? && cache.value.PageSource(page) == Some(Wrap(previous))
    ensures Obsolete(req, cache, s, page) <==>
              || req.refreshRequested
              || req.includesChanged
              || cache.value.renderingType != Partial
              || req.zoom != cache.value.zoom
              || previous != s
  {
    WrapInjective(previous, s);
  }

  // ---------------------------------------------------------------------------
  // The pass as a whole

  /** A pass either completes, or stops at the first page that throws. */
  lemma {:induction false} RunPagesOkIff(c: Compiler, req: RenderRequest, cache: Option<RenderCacheItem>,
                                         split: seq<string>, n: nat)
    requires n <= |split|
    ensures RunPages(c, req, cache, split, n).Ok? <==>
              forall p :: 0 <= p < n ==> PageItem(c, req, cache, split[p], p).Ok?
  {
    if n > 0 {
      RunPagesOkIff(c, req, cache, split, n - 1);
    }
  }

  /** The first page that throws decides the exception of the pass. */
  lemma {:induction false} FirstFailureDecides(c: Compiler, req: RenderRequest, cache: Option<RenderCacheItem>,
                                               split: seq<string>, p: nat, e: Abrupt)
    requires p < |split|
    requires forall q :: 0 <= q < p ==> PageItem(c, req, cache, split[q], q).Ok?
    requires PageItem(c, req, cache, split[p], p) == Err(e)
    ensures RunPages(c, req, cache, split, |split|) == Err(e)
  {
    RunPagesOkIff(c, req, cache, split, p);
    ErrStaysErr(c, req, cache, split, p + 1, |split|);
  }

  /** The normal path yields a PARTIAL result sized to the split document. */
  lemma {:induction false} RunPagesHeader(c: Compiler, req: RenderRequest, cache: Option<RenderCacheItem>,
                                          split: seq<string>, n: nat)
    requires n <= |split|
    requires RunPages(c, req, cache, split, n).Ok?
    ensures RunPages(c, req, cache, split, n).value.renderingType == Partial
    ensures RunPages(c, req, cache, split, n).value.pages == |split|
  {
    if n > 0 {
      RunPagesHeader(c, req, cache, split, n - 1);
    }
  }

  lemma NormalResult(c: Compiler, req: RenderRequest, cache: Option<RenderCacheItem>, split: seq<string>)
    requires forall p :: 0 <= p < |split| ==> PageItem(c, req, cache, split[p], p).Ok?
    ensures PartialRenderOutcome(c, req, cache, split).Ok?
    ensures PartialRenderOutcome(c, req, cache, split).value.renderingType == Partial
    ensures PartialRenderOutcome(c, req, cache, split).value.pages == |split|
  {
    RunPagesOkIff(c, req, cache, split, |split|);
    RunPagesHeader(c, req, cache, split, |split|);
  }

  // ---------------------------------------------------------------------------
  // The three-way partition

  /** The pages below n, in ascending order, that the decision sends to `d`. */
  function Indices(req: RenderRequest, cache: Option<RenderCacheItem>, split: seq<string>, d: Decision, n: nat)
    : seq<int>
    requires n <= |split|
  {
    if n == 0 then []
    else Indices(req, cache, split, d, n - 1) + (if Decide(req, cache, split[n - 1], n - 1) == d then [n - 1] else [])
  }

  function PagesOf(items: seq<ImageItem>): seq<int> {
    seq(|items|, i requires 0 <= i < |items| => items[i].page)
  }

  predicate ExactlyOne(a: bool, b: bool, c: bool) {
    (a || b || c) && !(a && b) && !(a && c) && !(b && c)
  }

  function Range(n: nat): seq<int> {
    seq(n, i => i)
  }

  lemma {:induction false} IndicesMembers(req: RenderRequest, cache: Option<RenderCacheItem>, split: seq<string>,
                                          d: Decision, n: nat)
    requires n <= |split|
    ensures forall p :: p in Indices(req, cache, split, d, n) <==>
                          0 <= p < n && Decide(req, cache, split[p], p) == d
    ensures forall i, j :: 0 <= i < j < |Indices(req, cache, split, d, n)| ==>
                             Indices(req, cache, split, d, n)[i] < Indices(req, cache, split, d, n)[j]
  {
    if n > 0 {
      var prev := Indices(req, cache, split, d, n - 1);
      IndicesMembers(req, cache, split, d, n - 1);
      forall i | 0 <= i < |prev| ensures prev[i] < n - 1 {
        assert prev[i] in prev;
      }
    }
  }

  /** The three index lists together hold every page exactly once. */
  lemma {:induction false} IndicesPartition(req: RenderRequest, cache: Option<RenderCacheItem>, split: seq<string>,
                                            n: nat)
    requires n <= |split|
    ensures |Indices(req, cache, split, Render, n)| + |Indices(req, cache, split, RefreshTitle, n)|
            + |Indices(req, cache, split, Reuse, n)| == n
    ensures forall p :: 0 <= p < n ==>
              ExactlyOne(p in Indices(req, cache, split, Render, n),
                         p in Indices(req, cache, split, RefreshTitle, n),
                         p in Indices(req, cache, split, Reuse, n))
  {
    IndicesMembers(req, cache, split, Render, n);
    IndicesMembers(req, cache, split, RefreshTitle, n);
    IndicesMembers(req, cache, split, Reuse, n);
    if n > 0 {
      IndicesPartition(req, cache, split, n - 1);
    }
  }

  /** The list of a result that decision `d` appends to. */
  function ListOf(v: ResultView, d: Decision): seq<ImageItem> {
    match d
    case Render => v.rendered
    case RefreshTitle => v.updatedTitles
    case Reuse => v.cached
  }

  lemma ListOfAdd(v: ResultView, d: Decision, d': Decision, item: ImageItem)
    ensures ListOf(Add(v, d, item), d') == ListOf(v, d') + (if d == d' then [item] else [])
  {
  }

  lemma IndicesStep(req: RenderRequest, cache: Option<RenderCacheItem>, split: seq<string>, d: Decision, n: nat)
    requires 0 < n <= |split|
    ensures Indices(req, cache, split, d, n)
            == Indices(req, cache, split, d, n - 1) + (if Decide(req, cache, split[n - 1], n - 1) == d then [n - 1] else [])
  {
  }

  /** Rendered and title-only items carry, in order, the real indices of the
      pages sent to them. */
  lemma {:induction false} TaggedPagesInOrder(c: Compiler, req: RenderRequest, cache: Option<RenderCacheItem>,
                                              split: seq<string>, d: Decision, n: nat)
    requires n <= |split| && d != Reuse
    requires RunPages(c, req, cache, split, n).Ok?
    ensures PagesOf(ListOf(RunPages(c, req, cache, split, n).value, d)) == Indices(req, cache, split, d, n)
  {
    if n > 0 {
      TaggedPagesInOrder(c, req, cache, split, d, n - 1);
      var v := RunPages(c, req, cache, split, n - 1).value;
      var s, p := split[n - 1], n - 1;
      var item := PageItem(c, req, cache, s, p).value;
      var e := Decide(req, cache, s, p);
      assert RunPages(c, req, cache, split, n).value == Add(v, e, item);
      ListOfAdd(v, e, d, item);
      IndicesStep(req, cache, split, d, n);
      if e == d {
        assert item.page == p;
        assert PagesOf(ListOf(v, d) + [item]) == PagesOf(ListOf(v, d)) + [p];
      }
    }
  }

  /** `items` are, in order, the cached items of `pages`. */
  predicate CachedItemsOf(cache: Option<RenderCacheItem>, items: seq<ImageItem>, pages: seq<int>) {
    && |items| == |pages|
    && forall i :: 0 <= i < |items| ==>
         cache.Some? && pages[i] in cache.value.items && items[i] == cache.value.items[pages[i]]
  }

  lemma CachedItemsOfSnoc(cache: Option<RenderCacheItem>, items: seq<ImageItem>, pages: seq<int>, p: int)
    requires CachedItemsOf(cache, items, pages)
    requires cache.Some? && p in cache.value.items
    ensures CachedItemsOf(cache, items + [cache.value.items[p]], pages + [p])
  {
  }

  /** Reused items are, in order, the cached items of the pages sent to reuse. */
  lemma {:induction false} ReusedItemsInOrder(c: Compiler, req: RenderRequest, cache: Option<RenderCacheItem>,
                                              split: seq<string>, n: nat)
    requires n <= |split|
    requires RunPages(c, req, cache, split, n).Ok?
    ensures CachedItemsOf(cache, RunPages(c, req, cache, split, n).value.cached, Indices(req, cache, split, Reuse, n))
  {
    if n > 0 {
      ReusedItemsInOrder(c, req, cache, split, n - 1);
      var v := RunPages(c, req, cache, split, n - 1).value;
      var s, p := split[n - 1], n - 1;
      var item := PageItem(c, req, cache, s, p).value;
      var e := Decide(req, cache, s, p);
      assert RunPages(c, req, cache, split, n).value == Add(v, e, item);
      ListOfAdd(v, e, Reuse, item);
      IndicesStep(req, cache, split, Reuse, n);
      var w := RunPages(c, req, cache, split, n).value;
      if e == Reuse {
        assert item == cache.value.items[p];
        assert w.cached == v.cached + [item];
        assert Indices(req, cache, split, Reuse, n) == Indices(req, cache, split, Reuse, n - 1) + [p];
        CachedItemsOfSnoc(cache, v.cached, Indices(req, cache, split, Reuse, n - 1), p);
      } else {
        assert w.cached == v.cached;
        assert Indices(req, cache, split, Reuse, n) == Indices(req, cache, split, Reuse, n - 1);
      }
    }
  }

  /** Rendered and title-only items carry the real page indices of the pages
      sent to them, in ascending order; reused items are the cached items of
      the pages sent to the cache, in ascending order. */
  lemma RunPagesPartition(c: Compiler, req: RenderRequest, cache: Option<RenderCacheItem>,
                          split: seq<string>, n: nat)
    requires n <= |split|
    requires RunPages(c, req, cache, split, n).Ok?
    ensures var v := RunPages(c, req, cache, split, n).value;
            var reused := Indices(req, cache, split, Reuse, n);
            && PagesOf(v.rendered) == Indices(req, cache, split, Render, n)
            && PagesOf(v.updatedTitles) == Indices(req, cache, split, RefreshTitle, n)
            && CachedItemsOf(cache, v.cached, reused)
  {
    TaggedPagesInOrder(c, req, cache, split, Render, n);
    TaggedPagesInOrder(c, req, cache, split, RefreshTitle, n);
    ReusedItemsInOrder(c, req, cache, split, n);
  }

  /** Each page of a completed pass lands in exactly one of the three lists. */
  lemma EveryPageOnce(c: Compiler, req: RenderRequest, cache: Option<RenderCacheItem>, split: seq<string>)
    requires RunPages(c, req, cache, split, |split|).Ok?
    ensures var v := RunPages(c, req, cache, split, |split|).value;
            |v.rendered| + |v.updatedTitles| + |v.cached| == |split|
    ensures var v := RunPages(c, req, cache, split, |split|).value;
            forall p :: 0 <= p < |split| ==>
              ExactlyOne(p in PagesOf(v.rendered), p in PagesOf(v.updatedTitles),
                         p in Indices(req, cache, split, Reuse, |split|))
  {
    RunPagesPartition(c, req, cache, split, |split|);
    IndicesPartition(req, cache, split, |split|);
  }

  // ---------------------------------------------------------------------------
  // Reuse and invalidation

  /** The cache holds every page as it is now, at this zoom, in PARTIAL mode,
      with an image for every selected page, and no refresh is asked for. */
  predicate UpToDate(req: RenderRequest, cache: Option<RenderCacheItem>, split: seq<string>) {
    && cache.Some?
    && !req.RequestedRefreshOrIncludesChanged()
    && cache.value.renderingType == Partial
    && req.zoom == cache.value.zoom
    && forall p :: 0 <= p < |split| ==>
         cache.value.PageSource(p) == Some(Wrap(split[p])) && (PageSelected(req, p) ==> cache.value.HasImage(p))
  }

  lemma {:induction false} UpToDateRunsReuse(c: Compiler, req: RenderRequest, cache: Option<RenderCacheItem>,
                                             split: seq<string>, n: nat)
    requires n <= |split|
    requires UpToDate(req, cache, split)
    ensures RunPages(c, req, cache, split, n).Ok?
    ensures var v := RunPages(c, req, cache, split, n).value;
            && v.rendered == [] && v.updatedTitles == [] && |v.cached| == n
            && forall p :: 0 <= p < n ==> p in cache.value.items && v.cached[p] == cache.value.items[p]
  {
    if n > 0 {
      UpToDateRunsReuse(c, req, cache, split, n - 1);
      assert Decide(req, cache, split[n - 1], n - 1) == Reuse;
    }
  }

  /** Rendering again against an up-to-date cache reuses every cached item, in
      page order, whatever the compiler would have answered. */
  lemma NothingChangedAllCached(c: Compiler, req: RenderRequest, cache: Option<RenderCacheItem>, split: seq<string>)
    requires UpToDate(req, cache, split)
    ensures PartialRenderOutcome(c, req, cache, split).Ok?
    ensures var v := PartialRenderOutcome(c, req, cache, split).value;
            && v.renderingType == Partial && v.pages == |split|
            && v.rendered == [] && v.updatedTitles == [] && |v.cached| == |split|
            && forall p :: 0 <= p < |split| ==> p in cache.value.items && v.cached[p] == cache.value.items[p]
  {
    UpToDateRunsReuse(c, req, cache, split, |split|);
    RunPagesHeader(c, req, cache, split, |split|);
  }

  /** Missing cache, refresh, changed includes, changed rendering type or
      changed zoom invalidate every page at once. */
  predicate StaleForAllPages(req: RenderRequest, cache: Option<RenderCacheItem>) {
    || cache.None?
    || req.RequestedRefreshOrIncludesChanged()
    || cache.value.renderingType != Partial
    || req.zoom != cache.value.zoom
  }

  lemma {:induction false} IndicesAll(req: RenderRequest, cache: Option<RenderCacheItem>, split: seq<string>,
                                      d: Decision, n: nat)
    requires n <= |split|
    requires forall p :: 0 <= p < n ==> Decide(req, cache, split[p], p) == d
    ensures Indices(req, cache, split, d, n) == Range(n)
  {
    if n > 0 {
      IndicesAll(req, cache, split, d, n - 1);
      assert Range(n - 1) + [n - 1] == Range(n);
    }
  }

  lemma IndicesNone(req: RenderRequest, cache: Option<RenderCacheItem>, split: seq<string>, d: Decision, n: nat)
    requires n <= |split|
    requires forall p :: 0 <= p < n ==> Decide(req, cache, split[p], p) != d
    ensures Indices(req, cache, split, d, n) == []
  {
    IndicesMembers(req, cache, split, d, n);
  }

  /** A globally stale cache is never reused: unselected pages get a title-only
      refresh, and with every page selected every page is rendered again. */
  lemma StaleNothingReused(c: Compiler, req: RenderRequest, cache: Option<RenderCacheItem>, split: seq<string>)
    requires StaleForAllPages(req, cache)
    requires RunPages(c, req, cache, split, |split|).Ok?
    ensures var v := RunPages(c, req, cache, split, |split|).value;
            v.cached == [] && |v.rendered| + |v.updatedTitles| == |split|
    ensures req.page == AllPages ==>
              var v := RunPages(c, req, cache, split, |split|).value;
              v.updatedTitles == [] && PagesOf(v.rendered) == Range(|split|)
  {
    RunPagesPartition(c, req, cache, split, |split|);
    IndicesPartition(req, cache, split, |split|);
    IndicesNone(req, cache, split, Reuse, |split|);
    if req.page == AllPages {
      IndicesNone(req, cache, split, RefreshTitle, |split|);
      IndicesAll(req, cache, split, Render, |split|);
    }
  }

  /** The pages below n that go to `d` are exactly page k. */
  lemma {:induction false} IndicesSingle(req: RenderRequest, cache: Option<RenderCacheItem>, split: seq<string>,
                                         d: Decision, n: nat, k: nat)
    requires k < n <= |split|
    requires forall p :: 0 <= p < n ==> (Decide(req, cache, split[p], p) == d <==> p == k)
    ensures Indices(req, cache, split, d, n) == [k]
  {
    if n - 1 == k {
      IndicesNone(req, cache, split, d, n - 1);
    } else {
      IndicesSingle(req, cache, split, d, n - 1, k);
    }
  }

  /** Apart from page k, every page is current and has its image. */
  predicate OnlyPageChanged(req: RenderRequest, cache: Option<RenderCacheItem>, split: seq<string>,
                            k: nat, previous: string)
  {
    && k < |split| && req.page == AllPages
    && cache.Some? && !req.RequestedRefreshOrIncludesChanged()
    && cache.value.renderingType == Partial && req.zoom == cache.value.zoom
    && (forall p :: 0 <= p < |split| && p != k ==>
          cache.value.PageSource(p) == Some(Wrap(split[p])) && cache.value.HasImage(p))
    && cache.value.PageSource(k) == Some(Wrap(previous)) && previous != split[k]
  }

  lemma OnlyPageChangedDecisions(req: RenderRequest, cache: Option<RenderCacheItem>, split: seq<string>,
                                 k: nat, previous: string)
    requires OnlyPageChanged(req, cache, split, k, previous)
    ensures forall p :: 0 <= p < |split| ==> (Decide(req, cache, split[p], p) == Render <==> p == k)
    ensures forall p :: 0 <= p < |split| ==> (Decide(req, cache, split[p], p) == Reuse <==> p != k)
  {
    WrapInjective(previous, split[k]);
  }

  /** Only the edited page is rendered again when every page is shown and the
      rest of the cache is current. */
  lemma SelectiveInvalidation(c: Compiler, req: RenderRequest, cache: Option<RenderCacheItem>, split: seq<string>,
                              k: nat, previous: string)
    requires OnlyPageChanged(req, cache, split, k, previous)
    requires RenderImage(c, req, k, Wrap(split[k])).Ok?
    ensures PartialRenderOutcome(c, req, cache, split).Ok?
    ensures var v := PartialRenderOutcome(c, req, cache, split).value;
            PagesOf(v.rendered) == [k] && v.updatedTitles == [] && |v.cached| == |split| - 1
  {
    var n := |split|;
    OnlyPageChangedDecisions(req, cache, split, k, previous);
    assert forall p :: 0 <= p < n ==> PageItem(c, req, cache, split[p], p).Ok?;
    RunPagesOkIff(c, req, cache, split, n);
    RunPagesPartition(c, req, cache, split, n);
    IndicesPartition(req, cache, split, n);
    IndicesNone(req, cache, split, RefreshTitle, n);
    IndicesSingle(req, cache, split, Render, n, k);
  }

  // ---------------------------------------------------------------------------
  // Pages that cannot be rendered on their own, and cancellation

  predicate IsErrorResult(v: ResultView) {
    && v.renderingType == Partial
    && v.pages == 1
    && |v.rendered| == 1
    && v.rendered[0].page == 0
    && v.rendered[0].description == ErrorDescription
    && v.rendered[0].title.None?
    && v.rendered[0].renderingType == Partial
    && v.updatedTitles == []
    && v.cached == []
  }

  /** A selected page whose stand-alone document reports several pages makes
      the whole call return the one-page error result, dropping earlier pages. */
  lemma TooManyPagesGivesErrorResult(c: Compiler, req: RenderRequest, cache: Option<RenderCacheItem>,
                                     split: seq<string>, p: nat)
    requires p < |split|
    requires forall q :: 0 <= q < p ==> PageItem(c, req, cache, split[q], q).Ok?
    requires ShouldRender(req, cache, split[p], p)
    requires c.zoomDiagram(Wrap(split[p]), req.useSettings, req.zoom).Returned?
    requires c.zoomDiagram(Wrap(split[p]), req.useSettings, req.zoom).value.totalPages > 1
    ensures PartialRenderOutcome(c, req, cache, split) == Ok(ErrorView(c, req))
    ensures IsErrorResult(PartialRenderOutcome(c, req, cache, split).value)
  {
    FirstFailureDecides(c, req, cache, split, p, PartialRenderingException);
  }

  /** An unselected obsolete page whose stand-alone document has several titles
      does the same. */
  lemma TooManyTitlesGivesErrorResult(c: Compiler, req: RenderRequest, cache: Option<RenderCacheItem>,
                                      split: seq<string>, p: nat)
    requires p < |split|
    requires forall q :: 0 <= q < p ==> PageItem(c, req, cache, split[q], q).Ok?
    requires !PageSelected(req, p) && Obsolete(req, cache, split[p], p)
    requires c.getTitles(Wrap(split[p]), req.useSettings).Returned?
    requires |c.getTitles(Wrap(split[p]), req.useSettings).value| > 1
    ensures PartialRenderOutcome(c, req, cache, split) == Ok(ErrorView(c, req))
    ensures IsErrorResult(PartialRenderOutcome(c, req, cache, split).value)
  {
    FirstFailureDecides(c, req, cache, split, p, PartialRenderingException);
  }

  /** Every other exception, cancellation included, leaves the call unchanged. */
  lemma OtherExceptionsPropagate(c: Compiler, req: RenderRequest, cache: Option<RenderCacheItem>,
                                 split: seq<string>, p: nat, e: Abrupt)
    requires p < |split|
    requires forall q :: 0 <= q < p ==> PageItem(c, req, cache, split[q], q).Ok?
    requires PageItem(c, req, cache, split[p], p) == Err(e) && e != PartialRenderingException
    ensures PartialRenderOutcome(c, req, cache, split) == Err(e)
  {
    FirstFailureDecides(c, req, cache, split, p, e);
  }
}
