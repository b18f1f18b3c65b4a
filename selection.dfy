/**
 The selection state machine of the component: at most one image identifier
 is selected (Some) or nothing is (None); a click toggles it.
 */
module Selection {
  import opened Wrappers
  import opened Canvas

  /** The selection after a click on image `id`: the selected image is deselected, any other becomes the selection. */
  function Click(sel: Option<Id>, id: Id): (r: Option<Id>)
    ensures r.None? <==> sel == Some(id)
    ensures r.Some? ==> r.value == id
  {
    if sel == Some(id) then None else Some(id)
  }

  /** The selection after clicking the images `ids` in order. */
  function Clicks(sel: Option<Id>, ids: seq<Id>): (r: Option<Id>)
    ensures ids == [] ==> r == sel
    ensures r.Some? ==> r == sel || r.value in ids
    decreases |ids|
  {
    if ids == [] then sel else Clicks(Click(sel, ids[0]), ids[1..])
  }

  /** `n` clicks on the same image. */
  function Repeated(id: Id, n: nat): seq<Id>
  {
    if n == 0 then [] else [id] + Repeated(id, n - 1)
  }

  /** After any non-empty click sequence, either nothing is selected or the last clicked image is. */
  lemma {:induction false} ClicksSelectLastOrNothing(sel: Option<Id>, ids: seq<Id>)
    requires ids != []
    ensures Clicks(sel, ids) == None || Clicks(sel, ids) == Some(ids[|ids| - 1])
    decreases |ids|
  {
    if |ids| > 1 {
      ClicksSelectLastOrNothing(Click(sel, ids[0]), ids[1..]);
      assert ids[1..][|ids[1..]| - 1] == ids[|ids| - 1];
    }
  }

  /** The last click of a sequence toggles the selection left by the clicks before it. */
  lemma {:induction false} ClicksLastStep(sel: Option<Id>, ids: seq<Id>)
    requires ids != []
    ensures Clicks(sel, ids) == Click(Clicks(sel, ids[..|ids| - 1]), ids[|ids| - 1])
    decreases |ids|
  {
    if |ids| > 1 {
      ClicksLastStep(Click(sel, ids[0]), ids[1..]);
      assert ids[1..][..|ids[1..]| - 1] == ids[..|ids| - 1][1..];
      assert ids[1..][|ids[1..]| - 1] == ids[|ids| - 1];
    } else {
      assert ids[..|ids| - 1] == [];
    }
  }

  /** Clicking one image n times starting with nothing selected selects it exactly when n is odd; starting with it selected, when n is even. */
  lemma {:induction false} RepeatedClicksAlternate(id: Id, n: nat)
    ensures Clicks(None, Repeated(id, n)) == (if n % 2 == 1 then Some(id) else None)
    ensures Clicks(Some(id), Repeated(id, n)) == (if n % 2 == 0 then Some(id) else None)
  {
    if n > 0 {
      RepeatedClicksAlternate(id, n - 1);
      assert Repeated(id, n)[0] == id && Repeated(id, n)[1..] == Repeated(id, n - 1);
    }
  }

  /** An image is drawn as selected when its identifier is the selection. */
  predicate IsSelected(it: Item, sel: Option<Id>): (b: bool)
    ensures b <==> Click(sel, it.id) == None
  {
    sel == Some(it.id)
  }

  /** How many of `items` are drawn as selected. */
  function SelectedCount(items: seq<Item>, sel: Option<Id>): (n: nat)
    ensures n <= |items|
    ensures sel.None? ==> n == 0
  {
    if items == [] then 0
    else (if IsSelected(items[0], sel) then 1 else 0) + SelectedCount(items[1..], sel)
  }

  /** The count is zero exactly when no item carries the selected identifier. */
  lemma {:induction false} NoneSelected(items: seq<Item>, sel: Option<Id>)
    ensures SelectedCount(items, sel) == 0 <==> forall i :: 0 <= i < |items| ==> !IsSelected(items[i], sel)
  {
    if items != [] {
      NoneSelected(items[1..], sel);
      assert forall i :: 1 <= i < |items| ==> items[i] == items[1..][i - 1];
    }
  }

  /** With distinct identifiers, at most one image is drawn as selected, and one is exactly when some image carries the selected identifier. */
  lemma {:induction false} AtMostOneSelected(items: seq<Item>, sel: Option<Id>)
    requires UniqueIds(items)
    ensures SelectedCount(items, sel) <= 1
    ensures SelectedCount(items, sel) == 1 <==> exists i :: 0 <= i < |items| && IsSelected(items[i], sel)
  {
    NoneSelected(items, sel);
    if items != [] {
      assert UniqueIds(items[1..]);
      AtMostOneSelected(items[1..], sel);
      if IsSelected(items[0], sel) {
        NoneSelected(items[1..], sel);
        assert forall i :: 0 <= i < |items[1..]| ==> items[1..][i].id != items[0].id;
      }
    }
  }
}
