/** The entry screen picks the watch of the visitor's local hour before the
    site opens. */
module EntryCeremony {
  import opened Wrappers
  import opened PrahariStore
  import FestivalClock

  /** The chain of hour ranges the entry effect tests, in its order; an hour
      that no range matches keeps the initial watch 1. */
  function EntryPrahari(hour: int): (id: int)
    ensures IsPrahariId(id)
  {
    if 6 <= hour < 9 then 1
    else if 9 <= hour < 12 then 2
    else if 12 <= hour < 15 then 3
    else if 15 <= hour < 18 then 4
    else if 18 <= hour < 21 then 5
    else if hour >= 21 || hour < 0 then 6
    else if 0 <= hour < 3 then 7
    else if 3 <= hour < 6 then 8
    else 1
  }

  /** Over a day's hours the chain is the three-hour slot counted from 6 AM,
      so every hour of the day gets the watch whose time range contains it;
      the `hour < 0` test and the fallback to watch 1 are never reached. */
  lemma EntryPrahariIsSlot(hour: int)
    requires 0 <= hour < 24
    ensures EntryPrahari(hour) == (hour + 18) % 24 / 3 + 1
    ensures var p := Praharis[EntryPrahari(hour) - 1];
            (hour - p.startHour) % 24 < 3
  {
  }

  /** Every watch is chosen for the three hours its table row names. */
  lemma EntryPrahariStartsEachWatch(k: int)
    requires 0 <= k < 8
    ensures EntryPrahari(Praharis[k].startHour) == k + 1
  {
  }

  /** On an open festival date the entry screen agrees with the upload clock
      from 6 AM to midnight; between midnight and 6 AM it picks watch 7 or 8
      where the upload clock has no watch at all, and it agrees with the
      corrected clock at every hour. */
  lemma EntryVersusFestivalClock(devMode: bool, t: FestivalClock.Instant)
    requires FestivalClock.ValidInstant(t)
    requires FestivalClock.DateOpen(FestivalClock.ShippedConfig(devMode), t.isoDate)
    ensures t.hour >= 6 ==>
              FestivalClock.CurrentPrahar(FestivalClock.ShippedConfig(devMode), t) == Some(EntryPrahari(t.hour))
    ensures t.hour < 6 ==>
              FestivalClock.CurrentPrahar(FestivalClock.ShippedConfig(devMode), t) == None &&
              EntryPrahari(t.hour) in {7, 8}
    ensures FestivalClock.CurrentPraharWrapped(FestivalClock.ShippedConfig(devMode), t) == Some(EntryPrahari(t.hour))
  {
    FestivalClock.ShippedWatches(devMode, t);
    FestivalClock.ShippedWrappedWatches(devMode, t);
    EntryPrahariIsSlot(t.hour);
  }

  /** The entry effect: select the watch of the given local hour. */
  method DetectPrahari(store: Store, hour: int)
    modifies store
    ensures store.Valid() && store.currentPrahari.id == EntryPrahari(hour)
    ensures 0 <= hour < 24 ==> (hour - store.currentPrahari.startHour) % 24 < 3
    ensures store.isTransitioning == old(store.isTransitioning)
    ensures store.totalRotation == old(store.totalRotation)
  {
    var prahariId := EntryPrahari(hour);
    if 0 <= hour < 24 {
      EntryPrahariIsSlot(hour);
    }
    store.SetPrahari(prahariId);
  }
}
