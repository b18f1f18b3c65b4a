# Placement engine of the KonvaImages component

This project models the logic inside the React component `KonvaImages`
(`src/components/KonvaImage.js`). The component shows fetched images on a
1024 x 768 stage and gives each one a 100 x 100 footprint. Three pieces are
modelled:

- the **selection toggle** (`handleImageClick`): clicking the selected image
  deselects it, and clicking any other image selects that one;
- the **drag-move handler** (`handleDragMove`): a drag of an image other than
  the selected one is ignored. Otherwise the target is clamped to
  `[0, 924] x [0, 668]`. The move is rejected when an image with another
  identifier is closer than 100 on both axes at once. An accepted move gives
  every image with the dragged identifier the clamped position and keeps
  everything else;
- **initial placement** (`generateRandomPosition` and the load effect): rejection
  sampling. A sample is accepted only when it is more than 100 away, on both
  axes, from every image it is checked against.

Modules, one per concern:

- `Canvas` (canvas.dfy): the constants of lines 22-24 and the stage size, plus
  the `Item` record (identifier, display number, top-left `x`, `y`).
- `Selection` (selection.dfy): the toggle as a function, click sequences, and
  how many images are drawn as selected.
- `Drag` (drag.dfy): the clamp, the scan as a loop (`CheckMove`), the
  single-identifier update (`MoveTo`), and the whole handler as the
  specification function `DragOutcome`.
- `Placement` (placement.dfy): the sampling loop (`GeneratePosition`),
  specified by `FirstAcceptable`, and the load pass (`PlaceImages`), specified
  by `PlaceAll`.
- `KonvaComponent` (konva_images.dfy): the class `KonvaImages`. It holds the
  two state variables `konvaImages` and `selectedImage`, and its handler
  methods are tied to the functions above. Its invariant `Valid()` says every
  image lies on the stage.

Modelling choices:

- Coordinates are `real`.
- `Math.random()` is replaced by a caller-supplied stream of `Draw(u, v)`, with
  `u` and `v` in `[0, 1)`. The unbounded `while` loop therefore stops when the
  stream runs out, and it then returns `None`.
- Identifiers are non-empty strings. So a selected identifier is always truthy
  for the guard `selectedImage && ...` on line 78.

Three behaviours of the code that the model keeps as written:

- The handler's own guard lets a drag through when nothing is selected, so
  such a drag can move the image (`Drag.DragWithNothingSelectedMoves`). Only
  the `draggable` prop of the render layer stops it.
- The drag check accepts a position 100 or more away on one axis (`>=`).
  Placement demands more than 100 on both axes (`>`). The invariant that
  dragging preserves is therefore the `>=` form (`Drag.Separated`).
- A load pass checks every new image only against the images present when the
  pass starts. For the first load that list is empty, so every image takes the
  first draw and no separation is enforced (`Placement.FirstLoadTakesFirstDraws`).
  The model has no bounded-retry fallback, because the code has none.

## Model

| member | source | states |
|---|---|---|
| Selection.Click | src/components/KonvaImage.js:68-74 | the new selection is empty exactly when the clicked id was the selection; otherwise it is the clicked id, so a click on another image reassigns the selection directly, with no intermediate deselect |
| Selection.Clicks | src/components/KonvaImage.js:68-74 | the selection after `handleImageClick` on each id in turn: unchanged by no clicks, and any selected id is the starting one or one that was clicked |
| Selection.ClicksSelectLastOrNothing | src/components/KonvaImage.js:68-74 | after any non-empty sequence of clicks, either nothing is selected or the last clicked id is: at most one id is ever selected |
| Selection.ClicksLastStep | src/components/KonvaImage.js:68-74 | the selection after a click sequence is the last click applied to the selection the earlier clicks left; with the `Click` contract this says a final click on another image selects it |
| Selection.RepeatedClicksAlternate | src/components/KonvaImage.js:68-74 | clicking one image n times from nothing selects it iff n is odd; starting from it selected, iff n is even |
| Selection.IsSelected | src/components/KonvaImage.js:114 | the test of line 114; an image is drawn with the selection ring exactly when a click on it would clear the selection |
| Selection.SelectedCount | src/components/KonvaImage.js:113-146 | the number of images for which line 114 holds, i.e. the rings drawn: at most the number of images, and zero when nothing is selected |
| Selection.NoneSelected | src/components/KonvaImage.js:114 | no image is drawn as selected exactly when no image carries the selected id |
| Selection.AtMostOneSelected | src/components/KonvaImage.js:114 | with distinct ids at most one image is drawn as selected, and exactly one when some image carries the selected id |
| Drag.Clamp | src/components/KonvaImage.js:82-83 | `max(0, min(v, hi))` is in `[0, hi]`, equals `v` inside the range, 0 below it and `hi` above it |
| Drag.ClampIdempotent | src/components/KonvaImage.js:82-83 | clamping an already clamped value changes nothing, for every bound |
| Drag.ClampToCanvas | src/components/KonvaImage.js:82-83 | the clamped target lies in `[0, 924] x [0, 668]`, and a target already there is kept |
| Drag.Clear | src/components/KonvaImage.js:90-91 | an image leaves room at a target exactly when its corner is outside the open 200 x 200 square centred on the target, i.e. the test of lines 90-91 fails |
| Drag.MoveAllowed | src/components/KonvaImage.js:86-95 | a move is refused exactly when some image with another id is closer than 100 on both axes |
| Drag.CheckMove | src/components/KonvaImage.js:86-95 | the scan's flag stays true iff every image with a different id is at least 100 away on the x axis or on the y axis; images sharing the dragged id are never looked at |
| Drag.MoveTo | src/components/KonvaImage.js:99-104 | same length and order, ids and numbers kept; every image with the dragged id gets the new position and every other image is identical |
| Drag.DragOutcome | src/components/KonvaImage.js:77-107 | the whole drag handler on values: the list keeps its length, and it changes only when nothing or the dragged id is selected and no other image blocks the clamped target |
| Drag.DragOfUnselectedIgnored | src/components/KonvaImage.js:78-80 | when an image is selected and another one is dragged, the list is unchanged |
| Drag.DragAcceptedOrRejected | src/components/KonvaImage.js:82-106 | past the guard, a blocked move leaves the list exactly as it was, and an allowed move replaces only the dragged id's coordinates by the clamped target |
| Drag.DragMovesOnlyDragged | src/components/KonvaImage.js:77-107 | whatever happens, length, order, ids and numbers are kept and images with other ids are untouched |
| Drag.DragKeepsInCanvas | src/components/KonvaImage.js:82-105 | if every image lies on the stage before a drag, every image does after it |
| Drag.DragKeepsSeparated | src/components/KonvaImage.js:86-105 | if every two images with different ids are 100 or more apart on some axis before a drag, they still are after it |
| Drag.DragNearOriginBlocked | src/components/KonvaImage.js:82-98 | the selected image dragged to (5, 5) keeps (5, 5) after clamping, and an image at (0, 0) then blocks the move |
| Drag.DragWithNothingSelectedMoves | src/components/KonvaImage.js:78-105 | with nothing selected the guard lets the drag through and the image moves to the clamped target |
| Placement.Sample | src/components/KonvaImage.js:32-33 | a sampled position lies in `[0, 924) x [0, 668)` |
| Placement.PlaceAt | src/components/KonvaImage.js:52-57 | the record built when an image loads carries the fetched id and number and the generated position |
| Placement.FarFrom | src/components/KonvaImage.js:38 | an existing image is far from a sample exactly when it lies more than 100 away on the x axis and more than 100 away on the y axis |
| Placement.Acceptable | src/components/KonvaImage.js:36-39 | the `every` test: any sample is accepted against an empty list, and a sample is rejected exactly when some image is within 100 on at least one axis |
| Placement.FirstAcceptable | src/components/KonvaImage.js:31-40 | finds the first draw whose sample is more than 100 away on both axes from every checked image, with all earlier draws rejected; none iff every draw is rejected |
| Placement.GeneratePosition | src/components/KonvaImage.js:27-43 | the sampling loop returns the first acceptable sample and consumes exactly the draws up to it; it returns none only after consuming the whole stream |
| Placement.PlaceAll | src/components/KonvaImage.js:45-63 | a completed load pass lists the fetched images in order with their ids and numbers, each inside `[0, 924) x [0, 668)` and more than 100 away on both axes from every image it was checked against |
| Placement.PlaceAllStep | src/components/KonvaImage.js:47-59 | the first image takes the first acceptable draw and the remaining images continue on the draws after it |
| Placement.PlaceImages | src/components/KonvaImage.js:45-63 | the loop over the fetched images computes exactly `PlaceAll` |
| Placement.AcceptableLeavesRoom | src/components/KonvaImage.js:36-39 | a position that placement accepts also passes the drag check against the same images |
| Placement.FirstLoadTakesFirstDraws | src/components/KonvaImage.js:36-39 | against an empty list every sample is accepted, so the first load puts image i at the sample of draw i |
| KonvaComponent.LoadOutcome | src/components/KonvaImage.js:45-65 | the list after a load pass: unchanged for an empty fetch; when it changes, it holds the fetched images in order with their ids and numbers, each on the stage and accepted against the list held before the pass; a list on the stage stays on the stage; a non-empty pass in which every image finds a position stores exactly the `PlaceAll` list, and a pass in which some image finds none stores nothing |
| KonvaComponent.FirstLoadStoresFirstDraws | src/components/KonvaImage.js:45-63 | the first load starts from an empty list, so when there is a draw for every fetched image, image i is stored at the sample of draw i |
| KonvaComponent.KonvaImages.constructor | src/components/KonvaImage.js:6-8 | starts with no images and nothing selected |
| KonvaComponent.KonvaImages.HandleImageClick | src/components/KonvaImage.js:68-74 | the selection becomes `Selection.Click` of the old one and the images are unchanged |
| KonvaComponent.KonvaImages.HandleDragMove | src/components/KonvaImage.js:77-107 | the images become `DragOutcome` of the old images and selection, the selection is unchanged, and every image stays on the stage |
| KonvaComponent.KonvaImages.LoadImages | src/components/KonvaImage.js:45-65 | an empty fetch changes nothing; otherwise the images are replaced by the `PlaceAll` result, or kept when some image never got a position; every image stays on the stage |

## Left out

- The HTTP fetch of the image records (lines 10-20): network I/O. `LoadImages` takes the fetched records as a parameter.
- Image loading (`new window.Image`, `onload`, `Promise.all`, lines 47-63): asynchronous browser I/O. The image handle is not part of `Item`. The model places images in input order. In the code, draws are consumed in the order the loads complete; since the draw stream is arbitrary, this ordering adds no behaviour the model misses. A failed placement leaves the list unchanged; see the line on termination below.
- Rendering (lines 109-153) and the `draggable={isSelected}` prop (line 124): the render layer, not the handlers.
- `Math.random` (lines 32-33): replaced by a caller-supplied stream of draws in `[0, 1)`.
- Termination of the unbounded sampling loop: it cannot be proved. The loop is bounded by the draw stream, and no fallback placement exists in the code, so none is modelled. In the code, a sampling loop that never finds a position hangs the page, and no later click or drag is handled. An `onload` that never fires instead leaves a promise pending while events go on. The model's `None` stands for both: the list is not replaced and the component keeps handling events, so the hang itself is not modelled.
- JavaScript floating point: coordinates are exact reals, so rounding and NaN are not modelled.
- JavaScript truthiness of identifiers: identifiers are non-empty strings, so `0` or `""` never act as "nothing selected".
- Pairwise separation of the initial layout: the code does not check images placed in the same pass against each other, so no such theorem is stated.
