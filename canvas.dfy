/**
 The geometry shared by placement and dragging: the fixed 1024 x 768 stage,
 the 100 x 100 image footprint, the minimum distance, and the records the
 component keeps for every image on the stage.
 */
module Canvas {

  const CanvasWidth: real := 1024.0
  const CanvasHeight: real := 768.0
  const ImageWidth: real := 100.0
  const ImageHeight: real := 100.0
  const MinDistance: real := 100.0

  /** Largest top-left coordinates that keep an image on the stage. */
  const MaxX: real := CanvasWidth - ImageWidth
  const MaxY: real := CanvasHeight - ImageHeight

  /** Image identifiers are non-empty, so a selected identifier is never falsy. */
  type Id = s: string | s != "" witness "id"

  /** A top-left position on the stage. */
  datatype Point = Point(x: real, y: real)

  /** One placed image: its identifier, its display number and its top-left corner. */
  datatype Item = Item(id: Id, number: int, x: real, y: real)

  function Pos(it: Item): Point
  {
    Point(it.x, it.y)
  }

  function Abs(v: real): real
  {
    if v < 0.0 then -v else v
  }

  /** The image lies entirely on the stage. */
  predicate InCanvas(it: Item)
  {
    0.0 <= it.x <= MaxX && 0.0 <= it.y <= MaxY
  }

  predicate AllInCanvas(items: seq<Item>)
  {
    forall i :: 0 <= i < |items| ==> InCanvas(items[i])
  }

  predicate UniqueIds(items: seq<Item>)
  {
    forall i, j :: 0 <= i < j < |items| ==> items[i].id != items[j].id
  }
}
