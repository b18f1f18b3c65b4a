/**
 Initial placement by rejection sampling. Each attempt scales a pair of
 values of the random source onto the stage and is accepted only when it is
 more than the minimum distance away, on both axes, from every image of the
 list it is checked against. The random source is the stream `draws`, so the
 sampling loop ends when the stream does.
 */
module Placement {
  import opened Wrappers
  import opened Canvas
  import Drag

  /** A value of Math.random(): in [0, 1). */
  type Fraction = r: real | 0.0 <= r < 1.0

  /** The two random values one attempt consumes, for x and for y. */
  datatype Draw = Draw(u: Fraction, v: Fraction)

  /** An image record as fetched, before it has a position. */
  datatype Descriptor = Descriptor(id: Id, number: int)

  /** The candidate position of one attempt; it lies in [0, MaxX) x [0, MaxY). */
  function Sample(d: Draw): (p: Point)
    ensures 0.0 <= p.x < MaxX && 0.0 <= p.y < MaxY
  {
    Point(d.u * (CanvasWidth - ImageWidth), d.v * (CanvasHeight - ImageHeight))
  }

  /** `o` is more than the minimum distance from `p` on both axes. */
  predicate FarFrom(o: Item, p: Point): (b: bool)
    ensures b <==> (o.x < p.x - MinDistance || p.x + MinDistance < o.x) && (o.y < p.y - MinDistance || p.y + MinDistance < o.y)
  {
    Abs(o.x - p.x) > MinDistance && Abs(o.y - p.y) > MinDistance
  }

  /** The acceptance test of an attempt: every image of `placed` is far from it. */
  predicate Acceptable(placed: seq<Item>, p: Point): (b: bool)
    ensures placed == [] ==> b
    ensures !b <==> (exists i :: 0 <= i < |placed| &&
                                (Abs(placed[i].x - p.x) <= MinDistance || Abs(placed[i].y - p.y) <= MinDistance))
  {
    forall i :: 0 <= i < |placed| ==> FarFrom(placed[i], p)
  }

  /** The index of the first draw whose sample is acceptable, if any. */
  function FirstAcceptable(placed: seq<Item>, draws: seq<Draw>): (r: Option<nat>)
    ensures r.Some? ==> r.value < |draws| && Acceptable(placed, Sample(draws[r.value]))
    ensures r.Some? ==> forall k :: 0 <= k < r.value ==> !Acceptable(placed, Sample(draws[k]))
    ensures r.None? <==> forall k :: 0 <= k < |draws| ==> !Acceptable(placed, Sample(draws[k]))
  {
    if draws == [] then None
    else if Acceptable(placed, Sample(draws[0])) then Some(0)
    else
      match FirstAcceptable(placed, draws[1..])
      case None => None
      case Some(k) => Some(k + 1)
  }

  /**
   The sampling loop of generateRandomPosition: draw until a sample is
   acceptable. `used` is the number of draws consumed.
   */
  method GeneratePosition(placed: seq<Item>, draws: seq<Draw>) returns (pos: Option<Point>, used: nat)
    ensures used <= |draws|
    ensures pos.Some? <==> FirstAcceptable(placed, draws).Some?
    ensures pos.Some? ==> used == FirstAcceptable(placed, draws).value + 1 && pos.value == Sample(draws[used - 1])
    ensures pos.None? ==> used == |draws|
  {
    var valid := false;
    var p := Point(0.0, 0.0);
    used := 0;
    while !valid && used < |draws|
      invariant used <= |draws|
      invariant valid ==> 0 < used && p == Sample(draws[used - 1]) && Acceptable(placed, p)
      invariant forall k :: 0 <= k < (if valid then used - 1 else used) ==> !Acceptable(placed, Sample(draws[k]))
    {
      p := Sample(draws[used]);
      valid := Acceptable(placed, p);
      used := used + 1;
    }
    if valid {
      pos := Some(p);
      var first := FirstAcceptable(placed, draws);
      assert first.Some? && first.value == used - 1;
    } else {
      pos := None;
    }
  }

  /** An image at `p` for descriptor `d`. */
  function PlaceAt(d: Descriptor, p: Point): (it: Item)
    ensures it.id == d.id && it.number == d.number && Pos(it) == p
  {
    Item(d.id, d.number, p.x, p.y)
  }

  /**
   The positions one load pass gives to `descs`, in order, each checked
   against `placed` only: images placed in the same pass are not checked
   against each other. None when the draws run out first.
   */
  function PlaceAll(placed: seq<Item>, descs: seq<Descriptor>, draws: seq<Draw>): (r: Option<seq<Item>>)
    ensures r.Some? ==> |r.value| == |descs|
    ensures r.Some? ==> forall i :: 0 <= i < |descs| ==>
      r.value[i].id == descs[i].id && r.value[i].number == descs[i].number &&
      0.0 <= r.value[i].x < MaxX && 0.0 <= r.value[i].y < MaxY &&
      Acceptable(placed, Pos(r.value[i]))
    ensures descs != [] && draws == [] ==> r.None?
    decreases |descs|
  {
    if descs == [] then Some([])
    else
      match FirstAcceptable(placed, draws)
      case None => None
      case Some(k) =>
        match PlaceAll(placed, descs[1..], draws[k + 1..])
        case None => None
        case Some(rest) => Some([PlaceAt(descs[0], Sample(draws[k]))] + rest)
  }

  /** `xs` in front of the list `o` holds, if it holds one. */
  function Prefixed(xs: seq<Item>, o: Option<seq<Item>>): Option<seq<Item>>
  {
    match o
    case None => None
    case Some(r) => Some(xs + r)
  }

  lemma PrefixedEmpty(o: Option<seq<Item>>)
    ensures Prefixed([], o) == o
  {
    if o.Some? {
      assert [] + o.value == o.value;
    }
  }

  lemma PrefixedEmptyList(xs: seq<Item>)
    ensures Prefixed(xs, Some([])) == Some(xs)
  {
    assert xs + [] == xs;
  }

  lemma PrefixedAppend(xs: seq<Item>, ys: seq<Item>, o: Option<seq<Item>>)
    ensures Prefixed(xs, Prefixed(ys, o)) == Prefixed(xs + ys, o)
  {
    if o.Some? {
      assert xs + (ys + o.value) == (xs + ys) + o.value;
    }
  }

  /** One step of a load pass: the first image takes the first acceptable draw and the rest continue after it. */
  lemma PlaceAllStep(placed: seq<Item>, descs: seq<Descriptor>, draws: seq<Draw>, k: nat)
    requires descs != [] && FirstAcceptable(placed, draws) == Some(k)
    ensures PlaceAll(placed, descs, draws) == Prefixed([PlaceAt(descs[0], Sample(draws[k]))], PlaceAll(placed, descs[1..], draws[k + 1..]))
  {
  }

  /**
   The placement part of a load pass: the images of `descs`, in order, each at
   the position generateRandomPosition finds against `placed`; None when some
   image finds none before the draws run out.
   */
  method PlaceImages(placed: seq<Item>, descs: seq<Descriptor>, draws: seq<Draw>) returns (r: Option<seq<Item>>)
    ensures r == PlaceAll(placed, descs, draws)
  {
    var loaded: seq<Item> := [];
    var rest := draws;
    var i := 0;
    assert descs[i..] == descs;
    PrefixedEmpty(PlaceAll(placed, descs, draws));
    while i < |descs|
      invariant i <= |descs|
      invariant PlaceAll(placed, descs, draws) == Prefixed(loaded, PlaceAll(placed, descs[i..], rest))
    {
      var pos, used := GeneratePosition(placed, rest);
      if pos.None? {
        PlaceAllStopsAt(placed, descs, i, rest);
        return None;
      }
      PlaceAllAdvances(placed, descs, draws, loaded, i, rest, used);
      loaded := loaded + [PlaceAt(descs[i], pos.value)];
      rest := rest[used..];
      i := i + 1;
    }
    assert descs[i..] == [];
    PrefixedEmptyList(loaded);
    r := Some(loaded);
  }

  /** When the image at `i` finds no position, the whole pass fails. */
  lemma PlaceAllStopsAt(placed: seq<Item>, descs: seq<Descriptor>, i: nat, rest: seq<Draw>)
    requires i < |descs| && FirstAcceptable(placed, rest).None?
    ensures PlaceAll(placed, descs[i..], rest).None?
  {
  }

  /** The image at `i` takes the first acceptable draw of `rest`, and the pass continues after it. */
  lemma PlaceAllAdvances(placed: seq<Item>, descs: seq<Descriptor>, draws: seq<Draw>, loaded: seq<Item>, i: nat, rest: seq<Draw>, used: nat)
    requires i < |descs| && 0 < used <= |rest| && FirstAcceptable(placed, rest) == Some(used - 1)
    requires PlaceAll(placed, descs, draws) == Prefixed(loaded, PlaceAll(placed, descs[i..], rest))
    ensures PlaceAll(placed, descs, draws) ==
      Prefixed(loaded + [PlaceAt(descs[i], Sample(rest[used - 1]))], PlaceAll(placed, descs[i + 1..], rest[used..]))
  {
    assert descs[i..][0] == descs[i] && descs[i..][1..] == descs[i + 1..];
    PlaceAllStep(placed, descs[i..], rest, used - 1);
    PrefixedAppend(loaded, [PlaceAt(descs[i], Sample(rest[used - 1]))], PlaceAll(placed, descs[i + 1..], rest[used..]));
  }

  /** The acceptance test of placement is stricter than the one of dragging. */
  lemma AcceptableLeavesRoom(placed: seq<Item>, id: Id, p: Point)
    requires Acceptable(placed, p)
    ensures Drag.MoveAllowed(placed, id, p)
  {
  }

  /**
   Against an empty list every sample is acceptable, so a first load takes
   the first draw for every image and enforces no separation at all.
   */
  lemma {:induction false} FirstLoadTakesFirstDraws(descs: seq<Descriptor>, draws: seq<Draw>)
    requires |descs| <= |draws|
    ensures PlaceAll([], descs, draws).Some?
    ensures forall i :: 0 <= i < |descs| ==> PlaceAll([], descs, draws).value[i] == PlaceAt(descs[i], Sample(draws[i]))
    decreases |descs|
  {
    if descs != [] {
      assert FirstAcceptable([], draws) == Some(0);
      FirstLoadTakesFirstDraws(descs[1..], draws[1..]);
    }
  }
}
