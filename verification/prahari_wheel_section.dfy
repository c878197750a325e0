/** The carousel of watches on the page: previous and next buttons that wrap
    round the eight, and a row of watch buttons. Each move selects the shown
    watch in the store as well. */
module PrahariWheelSection {
  import opened PrahariStore
  import Cyclic

  class Section {
    const store: Store
    var activeIndex: int

    /** The zero-based index of the watch the carousel shows. */
    predicate Valid()
      reads this
    {
      0 <= activeIndex < 8
    }

    constructor (store: Store)
      ensures this.store == store && activeIndex == 0 && Valid()
    {
      this.store := store;
      activeIndex := 0;
    }

    /** `handlePrevious`: show the previous watch, wrapping from the first to
        the eighth, and select it. */
    method HandlePrevious()
      requires Valid()
      modifies this, store
      ensures Valid() && activeIndex == Cyclic.Prev(old(activeIndex), 8)
      ensures old(activeIndex) == 0 ==> activeIndex == 7
      ensures store.Valid() && store.currentPrahari == Praharis[activeIndex]
      ensures store.isTransitioning == old(store.isTransitioning)
      ensures store.totalRotation == old(store.totalRotation)
    {
      var newIndex := Cyclic.Prev(activeIndex, 8);
      activeIndex := newIndex;
      store.SetPrahari(newIndex + 1);
    }

    /** `handleNext`: show the next watch, wrapping from the eighth to the
        first, and select it. */
    method HandleNext()
      requires Valid()
      modifies this, store
      ensures Valid() && activeIndex == Cyclic.Next(old(activeIndex), 8)
      ensures old(activeIndex) == 7 ==> activeIndex == 0
      ensures store.Valid() && store.currentPrahari == Praharis[activeIndex]
      ensures store.isTransitioning == old(store.isTransitioning)
      ensures store.totalRotation == old(store.totalRotation)
    {
      var newIndex := Cyclic.Next(activeIndex, 8);
      activeIndex := newIndex;
      store.SetPrahari(newIndex + 1);
    }

    /** `handlePrahariClick(index)`: show and select the clicked watch. */
    method HandlePrahariClick(index: int)
      requires 0 <= index < 8
      modifies this, store
      ensures Valid() && activeIndex == index
      ensures store.Valid() && store.currentPrahari == Praharis[index]
      ensures store.isTransitioning == old(store.isTransitioning)
      ensures store.totalRotation == old(store.totalRotation)
    {
      activeIndex := index;
      store.SetPrahari(index + 1);
    }
  }

  /** Going forward then back in the carousel returns to the watch it showed. */
  method NextThenPrevious(section: Section)
    requires section.Valid()
    modifies section, section.store
    ensures section.activeIndex == old(section.activeIndex)
    ensures section.store.currentPrahari == Praharis[section.activeIndex]
  {
    var start := section.activeIndex;
    section.HandleNext();
    section.HandlePrevious();
    Cyclic.PrevUndoesNext(start, 8);
  }
}
