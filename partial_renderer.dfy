/** Incremental partial rendering: every page of a split document is rendered
    as a stand-alone diagram, and only when the previous pass cannot be reused. */
module PartialRenderer {
  import opened RenderingModel
  import opened RenderResults

  const StartMarker: string := "@startuml\n"
  const EndMarker: string := "\n@enduml"

  /** Description of an item whose title was refreshed without rendering; the
      constant lives in the shared renderer base class, only its being distinct
      from ErrorDescription matters here. */
  const TitleOnly: string := "TITLE ONLY"
  const ErrorDescription: string := "(Error)"

  /** A page's text turned into a stand-alone single-diagram document. */
  function Wrap(s: string): string {
    StartMarker + s + EndMarker
  }

  /** The page text inside a wrapped document. */
  function Unwrap(w: string): (s: string)
    requires |w| >= |StartMarker| + |EndMarker|
    ensures |s| == |w| - |StartMarker| - |EndMarker|
  {
    w[|StartMarker|..|w| - |EndMarker|]
  }

  // ---------------------------------------------------------------------------
  // The per-page decision

  /** The cached item for `page` cannot be trusted for this request. */
  predicate Obsolete(req: RenderRequest, cache: Option<RenderCacheItem>, s: string, page: int) {
    || cache.None?
    || req.RequestedRefreshOrIncludesChanged()
    || cache.value.renderingType != Partial
    || req.zoom != cache.value.zoom
    || cache.value.PageSource(page) != Some(Wrap(s))
  }

  predicate PageSelected(req: RenderRequest, page: int) {
    req.page == AllPages || req.page == page
  }

  predicate ShouldRender(req: RenderRequest, cache: Option<RenderCacheItem>, s: string, page: int) {
    PageSelected(req, page) && (Obsolete(req, cache, s, page) || !cache.value.HasImage(page))
  }

  /** Which of the three lists a page goes to. */
  datatype Decision = Render | RefreshTitle | Reuse

  function Decide(req: RenderRequest, cache: Option<RenderCacheItem>, s: string, page: int): (d: Decision)
    ensures d == Render <==>
              PageSelected(req, page) && (Obsolete(req, cache, s, page) || !cache.value.HasImage(page))
    ensures d == RefreshTitle <==> !PageSelected(req, page) && Obsolete(req, cache, s, page)
    ensures d == Reuse <==>
              !Obsolete(req, cache, s, page) && (PageSelected(req, page) ==> cache.value.HasImage(page))
    ensures d == Reuse ==> cache.Some? && page in cache.value.items
  {
    if ShouldRender(req, cache, s, page) then Render
    else if Obsolete(req, cache, s, page) then RefreshTitle
    else Reuse
  }

  // ---------------------------------------------------------------------------
  // Title-only refresh and single-page render

  /** The title of a stand-alone page; more than one title means the page cannot
      be rendered on its own. */
  function GetTitle(c: Compiler, req: RenderRequest, partialSource: string): (r: Outcome<Option<string>>)
    ensures c.getTitles(partialSource, req.useSettings).Threw? ==>
              r == Err(Raised(c.getTitles(partialSource, req.useSettings).thrown))
    ensures c.getTitles(partialSource, req.useSettings).Returned? ==>
              var titles := c.getTitles(partialSource, req.useSettings).value;
              (r.Err? <==> |titles| > 1) &&
              (r.Err? ==> r.error == PartialRenderingException) &&
              (r.Ok? ==> (r.value.Some? <==> |titles| == 1) && (r.value.Some? ==> r.value.value == titles[0]))
  {
    match c.getTitles(partialSource, req.useSettings)
    case Threw(t) => Err(Raised(t))
    case Returned(titles) =>
      if |titles| > 1 then Err(PartialRenderingException) else Ok(FirstTitle(titles))
  }

  /** A title-only item for `page`: no image, the real page index and the wrapped source. */
  function UpdateTitle(c: Compiler, req: RenderRequest, page: int, partialSource: string): (r: Outcome<ImageItem>)
    ensures r.Err? <==> GetTitle(c, req, partialSource).Err?
    ensures r.Err? ==> r.error == GetTitle(c, req, partialSource).error
    ensures r.Ok? ==>
              && r.value.page == page
              && !r.value.HasImage()
              && r.value.renderingType == Partial
              && r.value.pageSource == Some(partialSource)
              && r.value.description == TitleOnly
              && r.value.title == GetTitle(c, req, partialSource).value
              && r.value.documentSource == req.source
  {
    match GetTitle(c, req, partialSource)
    case Err(e) => Err(e)
    case Ok(title) =>
      Ok(ImageItem(req.baseDir, req.format, req.source, Some(partialSource), page, TitleOnly,
                   None, Partial, title, None))
  }

  /** Renders one stand-alone page and re-tags the isolated run's item with the
      page's real index and the requested format. */
  function RenderImage(c: Compiler, req: RenderRequest, page: int, partialSource: string): (r: Outcome<ImageItem>)
    ensures r == Err(PartialRenderingException) <==>
              c.zoomDiagram(partialSource, req.useSettings, req.zoom).Returned? &&
              c.zoomDiagram(partialSource, req.useSettings, req.zoom).value.totalPages > 1
    ensures c.zoomDiagram(partialSource, req.useSettings, req.zoom).Threw? ==>
              r == Err(Raised(c.zoomDiagram(partialSource, req.useSettings, req.zoom).thrown))
    ensures r.Ok? <==>
              && c.zoomDiagram(partialSource, req.useSettings, req.zoom).Returned?
              && var info := c.zoomDiagram(partialSource, req.useSettings, req.zoom).value;
                 && info.totalPages <= 1
                 && c.generateImageItem(req, partialSource, page, FirstTitle(info.titles), info.filename).Returned?
    ensures c.zoomDiagram(partialSource, req.useSettings, req.zoom).Returned? ==>
              var info := c.zoomDiagram(partialSource, req.useSettings, req.zoom).value;
              var gen := c.generateImageItem(req, partialSource, page, FirstTitle(info.titles), info.filename);
              info.totalPages <= 1 && gen.Threw? && gen.thrown.Failure? ==>
                r == Err(WrappedRuntime(gen.thrown.message))
    ensures r.Ok? ==>
              && c.zoomDiagram(partialSource, req.useSettings, req.zoom).Returned?
              && var info := c.zoomDiagram(partialSource, req.useSettings, req.zoom).value;
                 var gen := c.generateImageItem(req, partialSource, page, FirstTitle(info.titles), info.filename);
                 && info.totalPages <= 1
                 && gen.Returned?
                 && r.value == gen.value.(page := page, format := req.format)
    ensures r == Err(Raised(Cancelled)) <==>
              || c.zoomDiagram(partialSource, req.useSettings, req.zoom) == Threw(Cancelled)
              || (&& c.zoomDiagram(partialSource, req.useSettings, req.zoom).Returned?
                  && var info := c.zoomDiagram(partialSource, req.useSettings, req.zoom).value;
                     && info.totalPages <= 1
                     && c.generateImageItem(req, partialSource, page, FirstTitle(info.titles), info.filename)
                        == Threw(Cancelled))
  {
    match c.zoomDiagram(partialSource, req.useSettings, req.zoom)
    case Threw(t) => Err(Raised(t))
    case Returned(info) =>
      if info.totalPages > 1 then Err(PartialRenderingException)
      else
        match c.generateImageItem(req, partialSource, page, FirstTitle(info.titles), info.filename)
        case Threw(Cancelled) => Err(Raised(Cancelled))
        case Threw(Failure(m)) => Err(WrappedRuntime(m))
        case Returned(item) => Ok(item.(page := page, format := req.format))
  }

  // ---------------------------------------------------------------------------
  // Specification of one pass

  /** The item a page contributes, or the exception processing it throws. */
  function PageItem(c: Compiler, req: RenderRequest, cache: Option<RenderCacheItem>, s: string, page: int)
    : Outcome<ImageItem>
  {
    match Decide(req, cache, s, page)
    case Render => RenderImage(c, req, page, Wrap(s))
    case RefreshTitle => UpdateTitle(c, req, page, Wrap(s))
    case Reuse => Ok(cache.value.items[page])
  }

  /** The result after appending `item` to the list `d` selects. */
  function Add(v: ResultView, d: Decision, item: ImageItem): ResultView {
    match d
    case Render => v.(rendered := v.rendered + [item])
    case RefreshTitle => v.(updatedTitles := v.updatedTitles + [item])
    case Reuse => v.(cached := v.cached + [item])
  }

  /** The state of the result after processing pages 0 .. n-1 in order. */
  function RunPages(c: Compiler, req: RenderRequest, cache: Option<RenderCacheItem>, split: seq<string>, n: nat)
    : Outcome<ResultView>
    requires n <= |split|
    decreases n
  {
    if n == 0 then Ok(ResultView(Partial, |split|, [], [], []))
    else
      match RunPages(c, req, cache, split, n - 1)
      case Err(e) => Err(e)
      case Ok(v) =>
        match PageItem(c, req, cache, split[n - 1], n - 1)
        case Err(e) => Err(e)
        case Ok(item) => Ok(Add(v, Decide(req, cache, split[n - 1], n - 1), item))
  }

  /** The one-page result that replaces a pass interrupted by a page that
      cannot be rendered on its own. */
  function ErrorView(c: Compiler, req: RenderRequest): ResultView {
    ResultView(Partial, 1, [ErrorItem(c, req)], [], [])
  }

  function ErrorItem(c: Compiler, req: RenderRequest): ImageItem {
    ImageItem(req.baseDir, req.format, req.source, None, 0, ErrorDescription,
              Some(c.exportError(None)), Partial, None, None)
  }

  /** What partialRender returns or throws. */
  function PartialRenderOutcome(c: Compiler, req: RenderRequest, cache: Option<RenderCacheItem>, split: seq<string>)
    : Outcome<ResultView>
  {
    match RunPages(c, req, cache, split, |split|)
    case Ok(v) => Ok(v)
    case Err(PartialRenderingException) => Ok(ErrorView(c, req))
    case Err(e) => Err(e)
  }

  // ---------------------------------------------------------------------------
  // The imperative renderer

  /** Decides a page and appends its item to `result`; on an exception the
      result is left as it was. */
  method ProcessPage(req: RenderRequest, cache: Option<RenderCacheItem>, s: string, c: Compiler,
                     result: RenderResult, page: int)
    returns (thrown: Option<Abrupt>)
    modifies result
    ensures PageItem(c, req, cache, s, page).Ok? ==>
              thrown.None? &&
              result.View() == Add(old(result.View()), Decide(req, cache, s, page), PageItem(c, req, cache, s, page).value)
    ensures PageItem(c, req, cache, s, page).Err? ==>
              thrown == Some(PageItem(c, req, cache, s, page).error) && result.View() == old(result.View())
  {
    var partialSource := StartMarker + s + EndMarker;
    var obsolete := cache.None?
                    || req.RequestedRefreshOrIncludesChanged()
                    || cache.value.renderingType != Partial
                    || req.zoom != cache.value.zoom
                    || cache.value.PageSource(page) != Some(partialSource);
    var pageSelected := req.page == AllPages || req.page == page;
    var shouldRender := pageSelected && (obsolete || !cache.value.HasImage(page));

    if shouldRender {
      var item := RenderImage(c, req, page, partialSource);
      if item.Err? {
        return Some(item.error);
      }
      result.AddRenderedImage(item.value);
    } else if obsolete {
      var item := UpdateTitle(c, req, page, partialSource);
      if item.Err? {
        return Some(item.error);
      }
      result.AddUpdatedTitle(item.value);
    } else {
      result.AddCachedImage(cache.value.items[page]);
    }
    thrown := None;
  }

  /** The one-page error result. The export's I/O failure is not modelled. */
  method RenderError(req: RenderRequest, c: Compiler) returns (result: RenderResult)
    ensures fresh(result)
    ensures result.View() == ErrorView(c, req)
  {
    result := new RenderResult(Partial, 1);
    var bytes := c.exportError(None);
    result.AddRenderedImage(ImageItem(req.baseDir, req.format, req.source, None, 0, ErrorDescription,
                                      Some(bytes), Partial, None, None));
  }

  /** Processes every page of `split` in ascending order; a page that cannot be
      rendered on its own replaces the whole result by the error result, every
      other exception leaves the method. */
  method PartialRender(req: RenderRequest, cache: Option<RenderCacheItem>, split: seq<string>, c: Compiler)
    returns (r: Outcome<RenderResult>)
    ensures r.Ok? ==> fresh(r.value) && PartialRenderOutcome(c, req, cache, split) == Ok(r.value.View())
    ensures r.Err? ==> PartialRenderOutcome(c, req, cache, split) == Err(r.error)
  {
    var result := new RenderResult(Partial, |split|);
    var page := 0;
    while page < |split|
      invariant 0 <= page <= |split|
      invariant fresh(result)
      invariant RunPages(c, req, cache, split, page) == Ok(result.View())
    {
      var thrown := ProcessPage(req, cache, split[page], c, result, page);
      if thrown.Some? {
        ErrStaysErr(c, req, cache, split, page + 1, |split|);
        if thrown.value == PartialRenderingException {
          var errorResult := RenderError(req, c);
          return Ok(errorResult);
        }
        return Err(thrown.value);
      }
      page := page + 1;
    }
    return Ok(result);
  }

  /** Once a page has thrown, the rest of the pass throws the same exception. */
  lemma {:induction false} ErrStaysErr(c: Compiler, req: RenderRequest, cache: Option<RenderCacheItem>,
                                       split: seq<string>, m: nat, n: nat)
    requires m <= n <= |split|
    requires RunPages(c, req, cache, split, m).Err?
    ensures RunPages(c, req, cache, split, n) == RunPages(c, req, cache, split, m)
    decreases n - m
  {
    if m < n {
      ErrStaysErr(c, req, cache, split, m, n - 1);
    }
  }
}
