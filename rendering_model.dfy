/** The values the partial renderer works on: the render request, the image
    items it produces, the cache of the previous pass, and the narrow interface
    of the diagram compiler it calls. */
module RenderingModel {

  datatype Option<+T> = None | Some(value: T)

  newtype byte = x: int | 0 <= x < 256

  /** The two ways a document can have been rendered. */
  datatype RenderingType = Normal | Partial

  /** Page selector value that asks for every page. */
  const AllPages: int := -1

  /** An immutable render request. */
  datatype RenderRequest = RenderRequest(
    baseDir: string,
    format: string,
    source: string,
    zoom: int,
    page: int,
    useSettings: bool,
    refreshRequested: bool,
    includesChanged: bool)
  {
    predicate RequestedRefreshOrIncludesChanged() {
      refreshRequested || includesChanged
    }
  }

  /** One page of output: rendered image, title-only update or error placeholder. */
  datatype ImageItem = ImageItem(
    baseDir: string,
    format: string,
    documentSource: string,
    pageSource: Option<string>,
    page: int,
    description: string,
    imageBytes: Option<seq<byte>>,
    renderingType: RenderingType,
    title: Option<string>,
    filename: Option<string>)
  {
    predicate HasImage() {
      imageBytes.Some?
    }
  }

  /** The result of the previous pass, kept by the caller; pages that were never
      stored are simply missing from `items`. */
  datatype RenderCacheItem = RenderCacheItem(
    renderingType: RenderingType,
    zoom: int,
    items: map<int, ImageItem>)
  {
    /** The wrapped page source the cached item for `page` was produced from, if any. */
    function PageSource(page: int): Option<string> {
      if page in items then items[page].pageSource else None
    }

    predicate HasImage(page: int) {
      page in items && items[page].HasImage()
    }
  }

  /** What the diagram compiler reports about a (single-diagram) document. */
  datatype DiagramInfo = DiagramInfo(totalPages: int, titles: seq<string>, filename: Option<string>)

  /** Exceptions a call into the diagram compiler may raise. */
  datatype Thrown = Cancelled | Failure(message: string)

  /** The outcome of one call into the diagram compiler. */
  datatype Call<+T> = Returned(value: T) | Threw(thrown: Thrown)

  /** The diagram compiler, seen only through the calls the renderer makes. */
  datatype Compiler = Compiler(
    /** page count, titles and file name of a document at a zoom (source, useSettings, zoom) */
    zoomDiagram: (string, bool, int) -> Call<DiagramInfo>,
    /** titles of a document (source, useSettings) */
    getTitles: (string, bool) -> Call<seq<string>>,
    /** rasterises page 0 of a document (request, source, log page, title, filename) */
    generateImageItem: (RenderRequest, string, int, Option<string>, Option<string>) -> Call<ImageItem>,
    /** the PNG bytes of an error diagram showing an optional message */
    exportError: Option<string> -> seq<byte>)

  /** Exceptions that leave a renderer operation. */
  datatype Abrupt =
    | PartialRenderingException
      /** a compiler exception propagated unchanged */
    | Raised(thrown: Thrown)
      /** a compiler failure wrapped into a RuntimeException */
    | WrappedRuntime(cause: string)

  /** The outcome of a renderer operation: a value, or the exception it throws. */
  datatype Outcome<+T> = Ok(value: T) | Err(error: Abrupt)

  /** A page's first title, or none for an empty title list. */
  function FirstTitle(titles: seq<string>): (t: Option<string>)
    ensures t.Some? <==> |titles| > 0
    ensures t.Some? ==> t.value == titles[0]
  {
    if |titles| > 0 then Some(titles[0]) else None
  }
}
