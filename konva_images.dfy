/**
 The component's state and its three event handlers: the list of placed
 images, the selected identifier, the click toggle, the drag-move handler
 and the load pass that gives every fetched image its initial position.
 */
module KonvaComponent {
  import opened Wrappers
  import opened Canvas
  import Selection
  import Drag
  import Placement

  /**
   The image list after a load pass over `images` that started with `items`:
   unchanged when nothing was fetched or when some image never got a position.
   */
  function LoadOutcome(items: seq<Item>, images: seq<Placement.Descriptor>, draws: seq<Placement.Draw>): (r: seq<Item>)
    ensures images == [] ==> r == items
    ensures r != items ==> (
      && |r| == |images|
      && forall i :: 0 <= i < |images| ==>
           r[i].id == images[i].id && r[i].number == images[i].number &&
           InCanvas(r[i]) && Placement.Acceptable(items, Pos(r[i])))
    ensures AllInCanvas(items) ==> AllInCanvas(r)
    ensures images != [] && Placement.PlaceAll(items, images, draws).Some? ==> r == Placement.PlaceAll(items, images, draws).value
    ensures Placement.PlaceAll(items, images, draws).None? ==> r == items
  {
    if images == [] then items
    else
      match Placement.PlaceAll(items, images, draws)
      case None => items
      case Some(r) => r
  }

  /**
   The first load, which starts from an empty list: if the stream holds a
   draw for every fetched image, image i is stored at the sample of draw i.
   */
  lemma {:induction false} FirstLoadStoresFirstDraws(images: seq<Placement.Descriptor>, draws: seq<Placement.Draw>)
    requires images != [] && |images| <= |draws|
    ensures |LoadOutcome([], images, draws)| == |images|
    ensures forall i :: 0 <= i < |images| ==>
      LoadOutcome([], images, draws)[i] == Placement.PlaceAt(images[i], Placement.Sample(draws[i]))
  {
    Placement.FirstLoadTakesFirstDraws(images, draws);
  }

  class KonvaImages {
    var konvaImages: seq<Item>
    var selectedImage: Option<Id>

    /** Every image lies on the stage. */
    ghost predicate Valid()
      reads this
    {
      AllInCanvas(konvaImages)
    }

    constructor ()
      ensures Valid()
      ensures konvaImages == [] && selectedImage == None
    {
      konvaImages := [];
      selectedImage := None;
    }

    /** A click on image `id` toggles the selection and leaves the images alone. */
    method HandleImageClick(id: Id)
      requires Valid()
      modifies this
      ensures Valid()
      ensures selectedImage == Selection.Click(old(selectedImage), id)
      ensures konvaImages == old(konvaImages)
    {
      if selectedImage == Some(id) {
        selectedImage := None;
      } else {
        selectedImage := Some(id);
      }
    }

    /** A drag-move event of image `imageId` to `target`; the selection is unchanged. */
    method HandleDragMove(imageId: Id, target: Point)
      requires Valid()
      modifies this
      ensures Valid()
      ensures konvaImages == Drag.DragOutcome(old(konvaImages), old(selectedImage), imageId, target)
      ensures selectedImage == old(selectedImage)
    {
      if selectedImage.Some? && selectedImage.value != imageId {
        return;
      }
      var newX := Drag.Clamp(target.x, MaxX);
      var newY := Drag.Clamp(target.y, MaxY);
      var valid := Drag.CheckMove(konvaImages, imageId, Point(newX, newY));
      if valid {
        konvaImages := Drag.MoveTo(konvaImages, imageId, Point(newX, newY));
      }
      Drag.DragKeepsInCanvas(old(konvaImages), selectedImage, imageId, target);
    }

    /**
     The load pass for the fetched `images`: every image is placed against
     the images held when the pass starts, and the list is replaced only
     once all of them have a position. An empty fetch changes nothing.
     */
    method LoadImages(images: seq<Placement.Descriptor>, draws: seq<Placement.Draw>)
      requires Valid()
      modifies this
      ensures Valid()
      ensures selectedImage == old(selectedImage)
      ensures konvaImages == LoadOutcome(old(konvaImages), images, draws)
    {
      if images == [] {
        return;
      }
      var loaded := Placement.PlaceImages(konvaImages, images, draws);
      if loaded.Some? {
        konvaImages := loaded.value;
      }
    }
  }
}
