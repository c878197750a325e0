/** Touch navigation: a horizontal swipe of more than 50 pixels moves to the
    neighbouring watch and turns the wheel one spoke. */
module SwipeController {
  import opened Wrappers
  import opened PrahariStore
  import Cyclic

  const MinSwipeDistance := 50

  /** The watch after `id`, with 8 followed by 1. */
  function NextId(id: int): (r: int)
    requires IsPrahariId(id)
    ensures IsPrahariId(r)
  {
    if id == 8 then 1 else id + 1
  }

  /** The watch before `id`, with 1 preceded by 8. */
  function PrevId(id: int): (r: int)
    requires IsPrahariId(id)
    ensures IsPrahariId(r)
  {
    if id == 1 then 8 else id - 1
  }

  /** Swiping one way and then back returns to the same watch, and the swipe
      order agrees with the carousel's wrap-around on zero-based indices. */
  lemma NextPrevInverse(id: int)
    requires IsPrahariId(id)
    ensures PrevId(NextId(id)) == id && NextId(PrevId(id)) == id
    ensures NextId(id) - 1 == Cyclic.Next(id - 1, 8)
    ensures PrevId(id) - 1 == Cyclic.Prev(id - 1, 8)
    ensures (NextId(id) - id - 1) % 8 == 0 && (PrevId(id) - id + 1) % 8 == 0
  {
  }

  /** A touch coordinate counts only when JavaScript finds it truthy: it was
      recorded and it is not 0. */
  predicate Truthy(x: Option<int>) {
    x.Some? && x.value != 0
  }

  /** The listeners that the component registers on the document, with the
      two refs they share. */
  class Controller {
    const store: Store
    var touchStart: Option<int>
    var touchEnd: Option<int>

    constructor (store: Store)
      ensures this.store == store && touchStart == None && touchEnd == None
    {
      this.store := store;
      touchStart := None;
      touchEnd := None;
    }

    /** `touchstart`: remember where the finger went down. */
    method HandleTouchStart(clientX: int)
      modifies this
      ensures touchStart == Some(clientX) && touchEnd == old(touchEnd)
    {
      touchStart := Some(clientX);
    }

    /** `touchmove`: remember where the finger is now. */
    method HandleTouchMove(clientX: int)
      modifies this
      ensures touchEnd == Some(clientX) && touchStart == old(touchStart)
    {
      touchEnd := Some(clientX);
    }

    /** `changePrahari(id, direction)`: unless a change is animating, start the
        animation, turn the wheel one spoke in `direction` and select `id`. */
    method ChangePrahari(id: int, direction: int)
      requires store.Valid() && IsPrahariId(id)
      modifies store
      ensures store.Valid()
      ensures old(store.isTransitioning) ==> unchanged(store)
      ensures !old(store.isTransitioning) ==>
                store.isTransitioning && store.currentPrahari.id == id &&
                store.totalRotation == old(store.totalRotation) + 45 * direction
    {
      if store.isTransitioning {
        return;
      }
      store.SetTransitioning(true);
      var newRotation := store.totalRotation + direction * 45;
      store.SetTotalRotation(newRotation);
      store.SetPrahari(id);
    }

    /** `touchend`: if both coordinates are truthy, a leftward swipe moves to
        the next watch, a rightward one to the previous watch, and both refs
        are cleared; otherwise nothing happens and the refs keep their values. */
    method HandleTouchEnd()
      requires store.Valid()
      modifies this, store
      ensures store.Valid()
      ensures !Truthy(old(touchStart)) || !Truthy(old(touchEnd)) ==>
                unchanged(this) && unchanged(store)
      ensures Truthy(old(touchStart)) && Truthy(old(touchEnd)) ==>
                touchStart == None && touchEnd == None
      ensures Truthy(old(touchStart)) && Truthy(old(touchEnd)) &&
              old(touchStart.value - touchEnd.value) > MinSwipeDistance && !old(store.isTransitioning) ==>
                store.isTransitioning &&
                store.currentPrahari.id == NextId(old(store.currentPrahari.id)) &&
                store.totalRotation == old(store.totalRotation) + 45
      ensures Truthy(old(touchStart)) && Truthy(old(touchEnd)) &&
              old(touchStart.value - touchEnd.value) < -MinSwipeDistance && !old(store.isTransitioning) ==>
                store.isTransitioning &&
                store.currentPrahari.id == PrevId(old(store.currentPrahari.id)) &&
                store.totalRotation == old(store.totalRotation) - 45
      ensures Truthy(old(touchStart)) && Truthy(old(touchEnd)) &&
              (old(store.isTransitioning) ||
               -MinSwipeDistance <= old(touchStart.value - touchEnd.value) <= MinSwipeDistance) ==>
                unchanged(store)
      ensures old(store.RotationAligned()) ==> store.RotationAligned()
    {
      if !Truthy(touchStart) || !Truthy(touchEnd) {
        return;
      }
      var distance := touchStart.value - touchEnd.value;
      var isLeftSwipe := distance > MinSwipeDistance;
      var isRightSwipe := distance < -MinSwipeDistance;
      var id := store.currentPrahari.id;
      NextPrevInverse(id);
      if isLeftSwipe {
        if store.RotationAligned() {
          AlignedStep(store.totalRotation, id, 1, NextId(id));
        }
        ChangePrahari(NextId(id), 1);
      }
      if isRightSwipe {
        if store.RotationAligned() {
          AlignedStep(store.totalRotation, id, -1, PrevId(id));
        }
        ChangePrahari(PrevId(id), -1);
      }
      touchStart := None;
      touchEnd := None;
    }
  }
}
