/**
 The drag-move evaluator: a drag of image `id` to a raw target is ignored when
 another image is selected; otherwise the target is clamped to the stage and
 the move is accepted unless some image with another identifier is closer
 than the minimum distance on both axes at once.
 */
module Drag {
  import opened Wrappers
  import opened Canvas

  /** Math.max(0, Math.min(v, hi)). */
  function Clamp(v: real, hi: real): (r: real)
    ensures 0.0 <= r
    ensures 0.0 <= hi ==> r <= hi
    ensures 0.0 <= v <= hi ==> r == v
    ensures v < 0.0 ==> r == 0.0
    ensures 0.0 <= hi < v ==> r == hi
  {
    var m := if v < hi then v else hi;
    if 0.0 < m then m else 0.0
  }

  /** Clamping twice is clamping once. */
  lemma ClampIdempotent(v: real, hi: real)
    ensures Clamp(Clamp(v, hi), hi) == Clamp(v, hi)
  {
  }

  /** The raw drag target moved onto the stage. */
  function ClampToCanvas(raw: Point): (p: Point)
    ensures 0.0 <= p.x <= MaxX && 0.0 <= p.y <= MaxY
    ensures 0.0 <= raw.x <= MaxX && 0.0 <= raw.y <= MaxY ==> p == raw
  {
    Point(Clamp(raw.x, MaxX), Clamp(raw.y, MaxY))
  }

  /** `o` leaves room for an image at `p`: it is at least the minimum distance away on one axis. */
  predicate Clear(o: Item, p: Point): (b: bool)
    ensures b <==> !(p.x - MinDistance < o.x < p.x + MinDistance && p.y - MinDistance < o.y < p.y + MinDistance)
  {
    Abs(o.x - p.x) >= MinDistance || Abs(o.y - p.y) >= MinDistance
  }

  /** Every image with another identifier leaves room at `p`; images sharing `id` are not looked at. */
  predicate MoveAllowed(items: seq<Item>, id: Id, p: Point): (b: bool)
    ensures !b <==> (exists i :: 0 <= i < |items| && items[i].id != id &&
                                Abs(items[i].x - p.x) < MinDistance && Abs(items[i].y - p.y) < MinDistance)
  {
    forall i :: 0 <= i < |items| && items[i].id != id ==> Clear(items[i], p)
  }

  /** The scan of the drag handler: it clears the flag on every image that blocks the move. */
  method CheckMove(items: seq<Item>, id: Id, p: Point) returns (valid: bool)
    ensures valid <==> MoveAllowed(items, id, p)
  {
    valid := true;
    for i := 0 to |items|
      invariant valid <==> forall k :: 0 <= k < i && items[k].id != id ==> Clear(items[k], p)
    {
      if items[i].id != id && Abs(items[i].x - p.x) < MinDistance && Abs(items[i].y - p.y) < MinDistance {
        valid := false;
      }
    }
  }

  /** The list with every image carrying `id` moved to `p`. */
  function MoveTo(items: seq<Item>, id: Id, p: Point): (r: seq<Item>)
    ensures |r| == |items|
    ensures forall i :: 0 <= i < |r| ==> r[i].id == items[i].id && r[i].number == items[i].number
    ensures forall i :: 0 <= i < |r| && items[i].id == id ==> Pos(r[i]) == p
    ensures forall i :: 0 <= i < |r| && items[i].id != id ==> r[i] == items[i]
  {
    if items == [] then []
    else [if items[0].id == id then items[0].(x := p.x, y := p.y) else items[0]] + MoveTo(items[1..], id, p)
  }

  /** The image list after a drag-move event of image `id` to `raw` while `sel` is the selection. */
  function DragOutcome(items: seq<Item>, sel: Option<Id>, id: Id, raw: Point): (r: seq<Item>)
    ensures |r| == |items|
    ensures r != items ==> (sel == None || sel == Some(id)) && MoveAllowed(items, id, ClampToCanvas(raw))
  {
    if sel.Some? && sel.value != id then items
    else
      var p := ClampToCanvas(raw);
      if MoveAllowed(items, id, p) then MoveTo(items, id, p) else items
  }

  /** A drag of an image other than the selected one changes nothing. */
  lemma DragOfUnselectedIgnored(items: seq<Item>, sel: Option<Id>, id: Id, raw: Point)
    requires sel.Some? && sel.value != id
    ensures DragOutcome(items, sel, id, raw) == items
  {
  }

  /**
   When the guard lets the drag through, the outcome is exactly one of two:
   the move is blocked by some other image and nothing changes, or no image
   blocks it and the dragged image alone goes to the clamped target.
   */
  lemma DragAcceptedOrRejected(items: seq<Item>, sel: Option<Id>, id: Id, raw: Point)
    requires sel == None || sel == Some(id)
    ensures var r := DragOutcome(items, sel, id, raw); var p := ClampToCanvas(raw);
      && |r| == |items|
      && (!MoveAllowed(items, id, p) ==> r == items)
      && (MoveAllowed(items, id, p) ==>
            forall i :: 0 <= i < |items| ==>
              r[i].id == items[i].id && r[i].number == items[i].number &&
              (items[i].id == id ==> Pos(r[i]) == p) &&
              (items[i].id != id ==> r[i] == items[i]))
  {
  }

  /** Whatever a drag does, images with other identifiers are untouched and identifiers and numbers stay in order. */
  lemma DragMovesOnlyDragged(items: seq<Item>, sel: Option<Id>, id: Id, raw: Point)
    ensures var r := DragOutcome(items, sel, id, raw);
      && |r| == |items|
      && (forall i :: 0 <= i < |items| ==> r[i].id == items[i].id && r[i].number == items[i].number)
      && (forall i :: 0 <= i < |items| && items[i].id != id ==> r[i] == items[i])
  {
  }

  /** A drag keeps every image on the stage. */
  lemma DragKeepsInCanvas(items: seq<Item>, sel: Option<Id>, id: Id, raw: Point)
    requires AllInCanvas(items)
    ensures AllInCanvas(DragOutcome(items, sel, id, raw))
  {
  }

  /** Every two images with different identifiers leave room for each other. */
  predicate Separated(items: seq<Item>)
  {
    forall i, j :: 0 <= i < |items| && 0 <= j < |items| && items[i].id != items[j].id ==> Clear(items[i], Pos(items[j]))
  }

  /** A drag never brings two images with different identifiers too close. */
  lemma {:induction false} DragKeepsSeparated(items: seq<Item>, sel: Option<Id>, id: Id, raw: Point)
    requires Separated(items)
    ensures Separated(DragOutcome(items, sel, id, raw))
  {
    var r := DragOutcome(items, sel, id, raw);
    var p := ClampToCanvas(raw);
    if r != items {
      assert MoveAllowed(items, id, p) && r == MoveTo(items, id, p);
      forall i, j | 0 <= i < |r| && 0 <= j < |r| && r[i].id != r[j].id
        ensures Clear(r[i], Pos(r[j]))
      {
        if items[i].id == id {
          assert Clear(items[j], p);
        } else if items[j].id == id {
          assert Clear(items[i], p);
        } else {
          assert Clear(items[i], Pos(items[j]));
        }
      }
    }
  }

  /** Image "a" selected and dragged to (5, 5), which is on the stage; image "b" at (0, 0) is too close on both axes, so nothing moves. */
  lemma DragNearOriginBlocked()
    ensures var items := [Item("a", 1, 300.0, 300.0), Item("b", 2, 0.0, 0.0)];
      ClampToCanvas(Point(5.0, 5.0)) == Point(5.0, 5.0) &&
      DragOutcome(items, Some("a"), "a", Point(5.0, 5.0)) == items
  {
  }

  /** The handler's own guard lets a drag through when nothing is selected: the image goes to the clamped target. */
  lemma DragWithNothingSelectedMoves()
    ensures DragOutcome([Item("a", 1, 300.0, 300.0)], None, "a", Point(-20.0, 1000.0)) == [Item("a", 1, 0.0, 668.0)]
  {
  }
}
