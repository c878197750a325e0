/** The desktop watch wheel: clicking a spoke turns the wheel the short way
    round to that watch. */
module PrahariWheel {
  import opened PrahariStore

  /** The signed number of spokes from watch `fromId` to watch `toId` along the
      shorter arc of the eight-spoke ring; at exactly half a turn the wheel
      turns the way the plain difference of the ids points. */
  function ShortestDelta(fromId: int, toId: int): (d: int)
    ensures -4 <= d <= 4
    ensures (toId - fromId - d) % 8 == 0
  {
    var m := (toId - fromId) % 8;
    if m < 4 then m
    else if m > 4 then m - 8
    else if toId > fromId then 4 else -4
  }

  /** No turn that reaches the target is shorter than `ShortestDelta`. */
  lemma ShortestDeltaIsShortest(fromId: int, toId: int, e: int)
    requires (toId - fromId - e) % 8 == 0
    ensures ShortestDelta(fromId, toId) <= (if e < 0 then -e else e)
    ensures -ShortestDelta(fromId, toId) <= (if e < 0 then -e else e)
  {
    var d := ShortestDelta(fromId, toId);
    var k := (d - e) / 8;
    assert d - e == 8 * k;
  }

  /** Between two watches of the ring, the short way round is the plain
      difference when that is at most half a turn, and the difference
      corrected by one full turn of eight otherwise. */
  lemma ShortestDeltaOnIds(fromId: int, toId: int)
    requires IsPrahariId(fromId) && IsPrahariId(toId)
    ensures -4 <= toId - fromId <= 4 ==> ShortestDelta(fromId, toId) == toId - fromId
    ensures toId - fromId > 4 ==> ShortestDelta(fromId, toId) == toId - fromId - 8
    ensures toId - fromId < -4 ==> ShortestDelta(fromId, toId) == toId - fromId + 8
    ensures ShortestDelta(fromId, toId) == 0 <==> fromId == toId
  {
  }

  /** `handlePrahariClick(id)`: ignored while a change is animating or when the
      clicked watch is already current; otherwise starts the animation, turns
      the wheel the short way to the clicked watch and selects it. The timer
      that ends the animation is the separate `SetTransitioning(false)` event. */
  method HandlePrahariClick(store: Store, id: int)
    requires store.Valid() && IsPrahariId(id)
    modifies store
    ensures store.Valid()
    ensures old(store.isTransitioning) || id == old(store.currentPrahari.id) ==>
              unchanged(store)
    ensures !old(store.isTransitioning) && id != old(store.currentPrahari.id) ==>
              store.isTransitioning && store.currentPrahari.id == id &&
              store.totalRotation == old(store.totalRotation) + 45 * ShortestDelta(old(store.currentPrahari.id), id)
    ensures old(store.RotationAligned()) ==> store.RotationAligned()
  {
    if store.isTransitioning || id == store.currentPrahari.id {
      return;
    }
    store.SetTransitioning(true);
    var currentId := store.currentPrahari.id;
    var delta := id - currentId;
    if delta > 4 {
      delta := delta - 8;
    }
    if delta < -4 {
      delta := delta + 8;
    }
    ShortestDeltaOnIds(currentId, id);
    if store.RotationAligned() {
      AlignedStep(store.totalRotation, currentId, delta, id);
    }
    store.SetTotalRotation(store.totalRotation + delta * 45);
    store.SetPrahari(id);
  }
}
