/** The mutable result object one render pass fills in. */
module RenderResults {
  import opened RenderingModel

  /** A value snapshot of a RenderResult's state. */
  datatype ResultView = ResultView(
    renderingType: RenderingType,
    pages: int,
    rendered: seq<ImageItem>,
    updatedTitles: seq<ImageItem>,
    cached: seq<ImageItem>)

  /** The three lists a pass appends to: freshly rendered pages, title-only
      updates and reused cached items, with the rendering type and page count. */
  class RenderResult {
    var renderingType: RenderingType
    var pages: int
    var rendered: seq<ImageItem>
    var updatedTitles: seq<ImageItem>
    var cached: seq<ImageItem>

    function View(): ResultView
      reads this
    {
      ResultView(renderingType, pages, rendered, updatedTitles, cached)
    }

    constructor (renderingType: RenderingType, pages: int)
      ensures View() == ResultView(renderingType, pages, [], [], [])
    {
      this.renderingType := renderingType;
      this.pages := pages;
      rendered, updatedTitles, cached := [], [], [];
    }

    method AddRenderedImage(item: ImageItem)
      modifies this
      ensures View() == old(View()).(rendered := old(rendered) + [item])
    {
      rendered := rendered + [item];
    }

    method AddUpdatedTitle(item: ImageItem)
      modifies this
      ensures View() == old(View()).(updatedTitles := old(updatedTitles) + [item])
    {
      updatedTitles := updatedTitles + [item];
    }

    method AddCachedImage(item: ImageItem)
      modifies this
      ensures View() == old(View()).(cached := old(cached) + [item])
    {
      cached := cached + [item];
    }
  }
}
