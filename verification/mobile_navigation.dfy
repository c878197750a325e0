/** The phone menu: a sheet listing the eight watches that selects one and
    closes. Unlike the wheel and the swipe gesture it does not turn the wheel. */
module MobileNavigation {
  import opened PrahariStore

  class Menu {
    const store: Store
    var isOpen: bool

    constructor (store: Store)
      ensures this.store == store && !isOpen
    {
      this.store := store;
      isOpen := false;
    }

    /** The indicator button opens the sheet. */
    method Open()
      modifies this
      ensures isOpen
    {
      isOpen := true;
    }

    /** The close button shuts the sheet. */
    method Close()
      modifies this
      ensures !isOpen
    {
      isOpen := false;
    }

    /** `handleSelect(id)`: the sheet always closes; unless a change is
        animating or `id` is already current, the animation starts and `id`
        becomes the current watch. The wheel's rotation is left as it was. */
    method HandleSelect(id: int)
      requires store.Valid() && IsPrahariId(id)
      modifies this, store
      ensures !isOpen && store.Valid()
      ensures old(store.isTransitioning) || id == old(store.currentPrahari.id) ==> unchanged(store)
      ensures !old(store.isTransitioning) && id != old(store.currentPrahari.id) ==>
                store.isTransitioning && store.currentPrahari.id == id
      ensures store.totalRotation == old(store.totalRotation)
    {
      if store.isTransitioning || id == store.currentPrahari.id {
        isOpen := false;
        return;
      }
      store.SetTransitioning(true);
      store.SetPrahari(id);
      isOpen := false;
    }
  }

  /** From a fresh store, choosing the second watch in the phone menu leaves
      the wheel at 0 degrees, which is the first watch's spoke, so the wheel
      no longer shows the current watch. */
  method SelectLeavesWheelBehind() returns (store: Store)
    ensures store.Valid() && store.currentPrahari.id == 2
    ensures store.totalRotation == 0 && !store.RotationAligned()
  {
    store := new Store();
    var menu := new Menu(store);
    menu.HandleSelect(2);
  }
}
