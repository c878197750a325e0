/** The shared watch store: the table of the eight watches, the current watch,
    whether a watch change is being animated, and the wheel's accumulated
    rotation in degrees. */
module PrahariStore {
  import Arith

  /** One watch of the table. Only the identity and the hour its time range
      starts at are kept; names, colours, mantras and texts are display data. */
  datatype Prahari = Prahari(id: int, startHour: int)

  /** The `praharis` table, in order: watch `k` starts at the hour its
      `timeRange` names (6 AM, 9 AM, noon, 3 PM, 6 PM, 9 PM, midnight, 3 AM). */
  const Praharis: seq<Prahari> := [
    Prahari(1, 6), Prahari(2, 9), Prahari(3, 12), Prahari(4, 15),
    Prahari(5, 18), Prahari(6, 21), Prahari(7, 0), Prahari(8, 3)
  ]

  predicate IsPrahariId(id: int) {
    1 <= id <= 8
  }

  /** Row `k` of the table is watch `k + 1`, and the watches start three hours
      apart, going round the clock from 6 AM. */
  lemma PraharisTable()
    ensures |Praharis| == 8
    ensures forall k :: 0 <= k < |Praharis| ==> Praharis[k].id == k + 1
    ensures forall k :: 0 <= k < |Praharis| ==> Praharis[k].startHour == (6 + 3 * k) % 24
  {
  }

  /** The wheel shows watch `id` when its angle, taken modulo a full turn, is
      the spoke of that watch: eight spokes 45 degrees apart, watch 1 at 0. */
  predicate Aligned(rotation: int, id: int) {
    rotation % 360 == 45 * (id - 1)
  }

  /** Turning an aligned wheel by `delta` spokes lands on the watch `delta`
      places further round the eight, whichever way and however far it turns. */
  lemma AlignedStep(rotation: int, id: int, delta: int, id': int)
    requires IsPrahariId(id) && IsPrahariId(id')
    requires Aligned(rotation, id)
    requires (id + delta - id') % 8 == 0
    ensures Aligned(rotation + 45 * delta, id')
  {
    var q := rotation / 360;
    var m := (id + delta - id') / 8;
    assert id + delta - id' == 8 * m;
    assert rotation == 360 * q + 45 * (id - 1);
    assert rotation + 45 * delta == 360 * (q + m) + 45 * (id' - 1);
    Arith.DivModUnique(rotation + 45 * delta, 360, q + m, 45 * (id' - 1));
  }

  /** A wheel angle is aligned with at most one watch: aligned with one, it
      is aligned with no other. */
  lemma AlignedWithOneWatch(rotation: int, id: int, id': int)
    requires IsPrahariId(id) && IsPrahariId(id') && id != id'
    requires Aligned(rotation, id)
    ensures !Aligned(rotation, id')
  {
  }

  /** The zustand store `usePrahariStore`. */
  class Store {
    var currentPrahari: Prahari
    var isTransitioning: bool
    var totalRotation: int

    /** The current watch is a row of the table. */
    predicate Valid()
      reads this
    {
      currentPrahari in Praharis
    }

    /** The wheel's rotation shows the current watch. */
    predicate RotationAligned()
      reads this
    {
      Aligned(totalRotation, currentPrahari.id)
    }

    /** The store starts at the first watch, idle, with the wheel at 0 degrees. */
    constructor ()
      ensures currentPrahari == Praharis[0] && !isTransitioning && totalRotation == 0
      ensures Valid() && RotationAligned()
    {
      currentPrahari := Praharis[0];
      isTransitioning := false;
      totalRotation := 0;
    }

    /** `setPrahari(id)`: the current watch becomes row `id - 1` of the table. */
    method SetPrahari(id: int)
      requires IsPrahariId(id)
      modifies this
      ensures currentPrahari == Praharis[id - 1] && currentPrahari.id == id
      ensures isTransitioning == old(isTransitioning) && totalRotation == old(totalRotation)
      ensures Valid()
    {
      currentPrahari := Praharis[id - 1];
    }

    /** `setTransitioning(status)`. */
    method SetTransitioning(status: bool)
      modifies this
      ensures isTransitioning == status
      ensures currentPrahari == old(currentPrahari) && totalRotation == old(totalRotation)
    {
      isTransitioning := status;
    }

    /** `setTotalRotation(rotation)`. */
    method SetTotalRotation(rotation: int)
      modifies this
      ensures totalRotation == rotation
      ensures currentPrahari == old(currentPrahari) && isTransitioning == old(isTransitioning)
    {
      totalRotation := rotation;
    }
  }
}
