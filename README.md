# Incremental partial rendering of PlantUML documents

This project models the partial renderer of the plantuml4idea plugin
(`PlantUmlPartialRenderer`). A PlantUML document is split into pages. Each
page is wrapped into a stand-alone diagram (`"@startuml\n" + page + "\n@enduml"`)
and handled on its own. For every page, in ascending order, the renderer
decides between three things:

- it renders the page again and adds the item to the result's *rendered* list;
- it refreshes only the page's title and adds a title-only item to the
  *updated titles* list;
- it reuses the cached item and adds it to the *cached* list.

A page is *obsolete* when there is no cache, a refresh was requested, the
included files changed, the cache was not produced in PARTIAL mode, the zoom
changed, or the cached wrapped source of the page differs. A page is *selected*
when the request asks for all pages (-1) or for that page. It is rendered when
it is selected and it is obsolete or has no cached image. It gets a title-only
refresh when it is obsolete but not selected. Otherwise it is reused.

A page that cannot be rendered on its own throws `PartialRenderingException`.
This happens when its stand-alone document reports more than one page on the
render path, or more than one title on the title-only path. `partialRender`
catches that exception and returns a one-page error result instead. Every
earlier page is then dropped.

Layout:

- `rendering_model.dfy` (module `RenderingModel`): request, image item,
  cache item, diagram info, and the diagram compiler as a value holding
  functions. Also the exceptions, as the `Abrupt` datatype inside an
  `Outcome` result.
- `render_result.dfy` (module `RenderResults`): the mutable `RenderResult`
  class with its three append operations, and `ResultView`, a value snapshot
  of its state.
- `partial_renderer.dfy` (module `PartialRenderer`): the decision predicates;
  `GetTitle`, `UpdateTitle` and `RenderImage` as functions returning an
  `Outcome`; the specification of a pass (`RunPages`, `PartialRenderOutcome`);
  and the imperative `ProcessPage`, `RenderError` and `PartialRender` methods
  proved against it.
- `partial_renderer_props.dfy` (module `PartialRendererProps`): lemmas about
  the pass. They cover the result header, the three-way partition, reuse,
  invalidation, the error fallback and exception propagation.

The diagram compiler (`zoomDiagram`, `getTitles`, `generateImageItem`, and the
error-diagram export) is a parameter of type `Compiler`. Each of its calls
either returns a value or throws. It throws either a cancellation or some
other failure. So every contract holds for every possible compiler.

## Behaviour worth noting

- Only `PartialRenderingException` is caught. Any other exception leaves
  `partialRender`, and no per-page error image is produced. A cancellation
  leaves unchanged. A failure inside `generateImageItem` leaves wrapped in a
  `RuntimeException`. A failure of `zoomDiagram` or `getTitles` leaves
  unchanged.
- A page whose stand-alone document has several pages makes the whole call
  return a one-page PARTIAL error result. No full-document rendering happens
  here.
- On the title-only path, several titles throw `PartialRenderingException`.
  On the render path they are only logged.
- `"(Error)"` occupies the error item's sixth constructor argument. That is
  the slot where the title-only item carries `TITLE_ONLY`, while titles go in
  the tenth argument. So the model stores `"(Error)"` as the item's
  `description`, and the error item has no title.

## Model

| member | source | states |
|---|---|---|
| `PartialRenderer.Decide` | src/org/plantuml/idea/rendering/PlantUmlPartialRenderer.java:72-82 | A page is rendered iff it is selected and obsolete or has no cached image. It gets a title-only refresh iff it is unselected and obsolete. It is reused iff it is not obsolete and, when selected, has an image. A reused page always has a cached item. |
| `PartialRendererProps.ObsoleteIffChanged` | src/org/plantuml/idea/rendering/PlantUmlPartialRenderer.java:64-70 | For a cached page made from text `previous`: the page is obsolete iff refresh is requested, the includes changed, the cache is not PARTIAL, the zoom differs, or `previous` differs from the current page text. |
| `PartialRendererProps.WrapInjective` | src/org/plantuml/idea/rendering/PlantUmlPartialRenderer.java:64 | Two wrapped page sources are equal iff the page texts are equal, so comparing wrapped sources detects exactly a text change. |
| `PartialRendererProps.UnwrapWrap` | src/org/plantuml/idea/rendering/PlantUmlPartialRenderer.java:64 | Removing the start and end markers from a wrapped page gives back the page text. `Unwrap` is an auxiliary function, used only to prove `WrapInjective`; the renderer never unwraps a page. |
| `PartialRenderer.GetTitle` | src/org/plantuml/idea/rendering/PlantUmlPartialRenderer.java:99-105 | Throws `PartialRenderingException` iff the compiler reports more than one title. Otherwise gives the single title, or none. A compiler exception propagates unchanged. |
| `PartialRenderer.UpdateTitle` | src/org/plantuml/idea/rendering/PlantUmlPartialRenderer.java:86-97 | A title-only item has the real page index, no image bytes, type PARTIAL, the wrapped page source and the title from GetTitle. It fails exactly when GetTitle fails, with the same exception. |
| `PartialRenderer.RenderImage` | src/org/plantuml/idea/rendering/PlantUmlPartialRenderer.java:108-129 | Succeeds iff `zoomDiagram` returns at most one page and `generateImageItem` returns. Throws `PartialRenderingException` iff the stand-alone document reports more than one page. A `zoomDiagram` exception propagates unchanged. A `generateImageItem` failure is wrapped in a RuntimeException, and its cancellation propagates unchanged. On success, returns the compiler's item re-tagged with the real page index and the requested format. |
| `PartialRenderer.ProcessPage` | src/org/plantuml/idea/rendering/PlantUmlPartialRenderer.java:62-84 | Appends the page's item to the list its decision selects, and changes nothing else. On an exception the result is left unchanged and the exception is returned. |
| `PartialRenderer.RenderError` | src/org/plantuml/idea/rendering/PlantUmlPartialRenderer.java:42-59 | Returns a fresh result equal to the one-page PARTIAL error result. Its single rendered item has page 0, description `"(Error)"` and the exported error image. |
| `PartialRenderer.PartialRender` | src/org/plantuml/idea/rendering/PlantUmlPartialRenderer.java:25-40 | Returns exactly what the pass specification gives: either the processed result, or the error result when a page throws `PartialRenderingException`. Any other exception it throws is the specification's exception. |
| `PartialRenderer.ErrStaysErr` | src/org/plantuml/idea/rendering/PlantUmlPartialRenderer.java:30-31 | Once a page throws, the rest of the pass ends with the same exception. |
| `PartialRendererProps.RunPagesOkIff` | src/org/plantuml/idea/rendering/PlantUmlPartialRenderer.java:30-32 | A pass over n pages completes iff none of those pages throws. |
| `PartialRendererProps.FirstFailureDecides` | src/org/plantuml/idea/rendering/PlantUmlPartialRenderer.java:30-32 | If page p is the first page to throw, the pass ends with p's exception. |
| `PartialRendererProps.RunPagesHeader` | src/org/plantuml/idea/rendering/PlantUmlPartialRenderer.java:29 | A completed pass has rendering type PARTIAL and a page count equal to the number of split pages. |
| `PartialRendererProps.NormalResult` | src/org/plantuml/idea/rendering/PlantUmlPartialRenderer.java:29-35 | When no page throws, partialRender returns a PARTIAL result whose page count is the number of split pages. |
| `PartialRendererProps.IndicesMembers` | src/org/plantuml/idea/rendering/PlantUmlPartialRenderer.java:30-31 | The pages sent to one decision are exactly the pages below n with that decision, listed in strictly ascending order. |
| `PartialRendererProps.IndicesPartition` | src/org/plantuml/idea/rendering/PlantUmlPartialRenderer.java:75-82 | Every page below n is sent to exactly one of the three decisions, and the three lists have n entries in total. |
| `PartialRendererProps.RunPagesPartition` | src/org/plantuml/idea/rendering/PlantUmlPartialRenderer.java:75-82 | Rendered and title-only items carry, in order, the page indices sent to render and to title refresh. The cached list holds, in order, the cached items of the pages sent to reuse. |
| `PartialRendererProps.TaggedPagesInOrder` | src/org/plantuml/idea/rendering/PlantUmlPartialRenderer.java:75-78 | The rendered list, and likewise the updated-titles list, carries in ascending order the real indices of exactly the pages sent to it. |
| `PartialRendererProps.ReusedItemsInOrder` | src/org/plantuml/idea/rendering/PlantUmlPartialRenderer.java:79-81 | The cached list holds, in ascending page order, the unchanged cached item of exactly the pages sent to reuse. |
| `PartialRendererProps.EveryPageOnce` | src/org/plantuml/idea/rendering/PlantUmlPartialRenderer.java:30-32 | A completed pass has one item per page, and every page appears in exactly one of rendered, updated titles or reused. |
| `PartialRendererProps.UpToDateRunsReuse` | src/org/plantuml/idea/rendering/PlantUmlPartialRenderer.java:79-81 | Against an up-to-date cache, every page reuses its cached item, so nothing is rendered and no title is refreshed. |
| `PartialRendererProps.NothingChangedAllCached` | src/org/plantuml/idea/rendering/PlantUmlPartialRenderer.java:66-81 | If nothing changed, partialRender returns a PARTIAL result whose only items are the cached items, in page order, whatever the compiler would answer. |
| `PartialRendererProps.StaleNothingReused` | src/org/plantuml/idea/rendering/PlantUmlPartialRenderer.java:66-78 | A missing cache, a refresh, changed includes, a non-PARTIAL cache or a zoom change means no page is reused. With all pages selected, every page is rendered, in order. |
| `PartialRendererProps.OnlyPageChangedDecisions` | src/org/plantuml/idea/rendering/PlantUmlPartialRenderer.java:66-73 | When only page k's text changed and all pages are selected, k is the only page rendered and every other page is reused. |
| `PartialRendererProps.SelectiveInvalidation` | src/org/plantuml/idea/rendering/PlantUmlPartialRenderer.java:75-81 | In that situation, if page k renders, the result renders exactly page k, refreshes no titles and reuses the other n-1 pages. |
| `PartialRendererProps.TooManyPagesGivesErrorResult` | src/org/plantuml/idea/rendering/PlantUmlPartialRenderer.java:115-116 | Take a page that should be rendered and whose stand-alone document reports more than one page, with no earlier page throwing. Then the call returns the one-page PARTIAL error result. Its single item has page 0 and description `"(Error)"`, and earlier items are dropped. |
| `PartialRendererProps.TooManyTitlesGivesErrorResult` | src/org/plantuml/idea/rendering/PlantUmlPartialRenderer.java:101-102 | The same holds for an unselected obsolete page whose stand-alone document reports more than one title. |
| `PartialRendererProps.OtherExceptionsPropagate` | src/org/plantuml/idea/rendering/PlantUmlPartialRenderer.java:36-38 | Any other first exception, cancellation included, leaves partialRender unchanged instead of producing the error result. |

## Left out

- The PlantUML library (`FileFormatOption`, `SourceStringReader`, `zoomDiagram`, `getTitles`, `generateImageItem`, `PSystemErrorV2.exportDiagram`) is a foreign rasterisation engine. It is a `Compiler` parameter of arbitrary functions.
- The compiler's titles object (`DiagramInfo.Titles`) is not part of this model. Asking an empty title list for its first title is modelled as giving no title.
- `RenderRequest` is not part of this model beyond its getters. `requestedRefreshOrIncludesChanged()` is read, from its name, as "refresh requested or includes changed", modelled as two flags joined by `||`.
- `RenderResult`, `RenderCacheItem`, `ImageItem` and `RenderingType` are not part of this model beyond what the renderer uses. The add methods append to their list. `hasImage` means the item has image bytes. A page missing from the cache has no source and no image. `renderingTypeChanged` means the cache's type is not PARTIAL. The `ImageItem(page, item, format)` copy keeps every other field.
- The eighth `ImageItem` constructor argument, always null in this code, is not modelled.
- The value of the `TITLE_ONLY` constant is defined in the shared renderer base class, which is not part of this model. The model only needs it to differ from `"(Error)"`.
- Zoom is compared as a plain number, as `!=` does on a primitive.
- Timing and debug/warning logging (`System.currentTimeMillis`, `logger`) have no effect on results and are left out. So is the warning about several titles on the render path.
- RenderError: the `IOException` path of the error export is stream I/O and is not modelled.
- The message handed to the error diagram is absent, because `PartialRenderingException` is created without one.
- The IDE editor, classloader, save action and image container files are UI or host-specific code and are not modelled.
