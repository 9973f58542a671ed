/**
 * The admin handlers of admin/admin.py: lot creation and resizing
 * (edit_lot), single-spot deletion (spot_view), the occupied counts of
 * dashboard and lot_search, and the running-cost estimate of spot_details.
 */
module Admin {
  import opened Wrappers
  import opened Text
  import opened Billing
  import opened Models
  import opened Forms
  import opened Tables
  import opened Store

  function Max0(n: int): nat {
    if n < 0 then 0 else n
  }

  function Min(a: int, b: int): int {
    if a <= b then a else b
  }

  // ---------------------------------------------------------------------------
  // Resizing policy, stated on the spot table before and after

  /** The spots a resize may flip: deactivation takes active Available spots, reactivation takes deactivated ones. */
  function Candidates(lotId: int, activate: bool): SpotFilter {
    if activate then InactiveIn(lotId) else ActiveAvailableIn(lotId)
  }

  /**
   * `after` is `before` with the `active` flag set to `activate` on some
   * candidate spots and nothing else changed, each flipped spot numbered at
   * least as high as every candidate left unflipped.
   */
  predicate FlippedHighestFirst(before: seq<Spot>, after: seq<Spot>, lotId: int, activate: bool) {
    && |after| == |before|
    && (forall k :: 0 <= k < |before| ==>
          after[k] == before[k] ||
          (Matches(Candidates(lotId, activate), before[k]) && after[k] == before[k].(active := activate)))
    && (forall i, j ::
          (0 <= i < |before| && 0 <= j < |before| &&
           after[i] != before[i] && Matches(Candidates(lotId, activate), after[j])) ==>
          before[i].spotNo >= after[j].spotNo)
  }

  /** Flipping the highest-numbered remaining candidate keeps the highest-first order. */
  lemma FlipHighest(before: seq<Spot>, mid: seq<Spot>, lotId: int, activate: bool, i: int)
    requires FlippedHighestFirst(before, mid, lotId, activate)
    requires i == HighestMatch(mid, Candidates(lotId, activate)) && i >= 0
    ensures FlippedHighestFirst(before, mid[i := mid[i].(active := activate)], lotId, activate)
  {
    var f := Candidates(lotId, activate);
    var after := mid[i := mid[i].(active := activate)];
    assert !Matches(f, after[i]);
    forall k | 0 <= k < |before|
      ensures after[k] == before[k] || (Matches(f, before[k]) && after[k] == before[k].(active := activate))
    {
      if k == i {
        assert mid[i] == before[i];
      }
    }
  }

  /**
   * Flips `active` on up to `limit` candidate spots of the lot, highest
   * spot number first: the `.order_by(spot_no.desc())` queries of the
   * shrink (with `.limit`) and of the reactivation loop (with its
   * `spots_to_add` countdown).
   */
  method SetActiveOnHighest(db: Database, lotId: int, limit: int, activate: bool) returns (flipped: nat)
    modifies db`spots
    ensures FlippedHighestFirst(old(db.spots), db.spots, lotId, activate)
    ensures flipped == Min(Max0(limit), Count(old(db.spots), Candidates(lotId, activate)))
    ensures Count(db.spots, Candidates(lotId, activate)) == Count(old(db.spots), Candidates(lotId, activate)) - flipped
    ensures activate ==> Count(db.spots, ActiveIn(lotId)) == Count(old(db.spots), ActiveIn(lotId)) + flipped
    ensures !activate ==> Count(db.spots, ActiveIn(lotId)) == Count(old(db.spots), ActiveIn(lotId)) - flipped
  {
    var f := Candidates(lotId, activate);
    flipped := 0;
    while flipped < limit
      invariant flipped <= Max0(limit)
      invariant FlippedHighestFirst(old(db.spots), db.spots, lotId, activate)
      invariant Count(db.spots, f) == Count(old(db.spots), f) - flipped
      invariant activate ==> Count(db.spots, ActiveIn(lotId)) == Count(old(db.spots), ActiveIn(lotId)) + flipped
      invariant !activate ==> Count(db.spots, ActiveIn(lotId)) == Count(old(db.spots), ActiveIn(lotId)) - flipped
    {
      var i := HighestMatch(db.spots, f);
      if i < 0 {
        break;
      }
      var s := db.spots;
      var v := s[i].(active := activate);
      CountUpdate(s, i, v, f);
      CountUpdate(s, i, v, ActiveIn(lotId));
      FlipHighest(old(db.spots), s, lotId, activate, i);
      db.spots := s[i := v];
      flipped := flipped + 1;
    }
  }

  /**
   * `after` is `before` followed by `n` (none when `n` is negative) new
   * spots of the lot: keys from `next0`, numbers from `first`, Available
   * and active.
   */
  predicate Appended(before: seq<Spot>, after: seq<Spot>, next0: int, lotId: int, first: int, n: int) {
    && |after| == |before| + Max0(n) && after[..|before|] == before
    && forall k :: |before| <= k < |after| ==>
         after[k] == Spot(next0 + (k - |before|), lotId, first + (k - |before|), Available, true)
  }

  /** Every spot key, and every spot a reservation points at, is below `next`. */
  predicate SpotKeysBelow(spots: seq<Spot>, rs: seq<Reservation>, next: int) {
    && (forall k :: 0 <= k < |spots| ==> spots[k].id < next)
    && (forall k :: 0 <= k < |rs| && rs[k].spotId.Some? ==> rs[k].spotId.value < next)
  }

  /** Every spot of the lot is numbered below `first`. */
  predicate NumbersBelow(spots: seq<Spot>, lotId: int, first: int) {
    forall k :: 0 <= k < |spots| && spots[k].lotId == lotId ==> spots[k].spotNo < first
  }

  /**
   * Appends `n` new spots to the lot, numbered consecutively from `first`,
   * all Available and active, with new keys: the `range(...)` loops of
   * lot creation and of growth.
   */
  method AppendSpots(db: Database, lotId: int, first: int, n: int)
    modifies db`spots, db`nextSpotId
    ensures db.nextSpotId == old(db.nextSpotId) + Max0(n)
    ensures Appended(old(db.spots), db.spots, old(db.nextSpotId), lotId, first, n)
  {
    var spotNo := first;
    while spotNo < first + n
      invariant first <= spotNo <= first + Max0(n)
      invariant db.nextSpotId == old(db.nextSpotId) + (spotNo - first)
      invariant |db.spots| == |old(db.spots)| + (spotNo - first)
      invariant db.spots[..|old(db.spots)|] == old(db.spots)
      invariant forall k :: |old(db.spots)| <= k < |db.spots| ==>
                  db.spots[k] == Spot(old(db.nextSpotId) + (k - |old(db.spots)|), lotId, first + (k - |old(db.spots)|), Available, true)
    {
      db.spots := db.spots + [Spot(db.nextSpotId, lotId, spotNo, Available, true)];
      db.nextSpotId := db.nextSpotId + 1;
      spotNo := spotNo + 1;
    }
  }

  /** Spot numbers of a lot start at 1; a new spot takes the lot's highest number (deactivated spots included) plus one. */
  function NextSpotNo(spots: seq<Spot>, lotId: int): (n: int)
    ensures forall k :: 0 <= k < |spots| && spots[k].lotId == lotId ==> spots[k].spotNo < n
    ensures Count(spots, InLot(lotId)) == 0 ==> n == 1
    ensures Count(spots, InLot(lotId)) > 0 ==>
              exists k :: 0 <= k < |spots| && spots[k].lotId == lotId && spots[k].spotNo == n - 1
  {
    var i := HighestMatch(spots, InLot(lotId));
    if i < 0 then 1 else spots[i].spotNo + 1
  }

  /** Row by row, the same spot in the same lot with the same number and status. */
  predicate SameKeys(before: seq<Spot>, after: seq<Spot>) {
    && |after| == |before|
    && forall k :: 0 <= k < |before| ==>
         && after[k].id == before[k].id && after[k].lotId == before[k].lotId
         && after[k].spotNo == before[k].spotNo && after[k].status == before[k].status
  }

  lemma SameKeysKeepInvariants(before: seq<Spot>, after: seq<Spot>, rs: seq<Reservation>)
    requires SameKeys(before, after)
    ensures SpotIdsDistinct(before) ==> SpotIdsDistinct(after)
    ensures SpotNumbersDistinct(before) ==> SpotNumbersDistinct(after)
    ensures Occupancy(before, rs) ==> Occupancy(after, rs)
  {
  }

  /**
   * Flipping `active` on candidates keeps every key and status, keeps
   * deactivated spots Available, and changes no other lot's active count.
   */
  lemma FlipKeepsInvariants(before: seq<Spot>, after: seq<Spot>, lotId: int, activate: bool)
    requires FlippedHighestFirst(before, after, lotId, activate)
    requires InactiveAvailable(before)
    ensures SameKeys(before, after)
    ensures InactiveAvailable(after)
    ensures forall other :: other != lotId ==> Count(after, ActiveIn(other)) == Count(before, ActiveIn(other))
  {
    forall other | other != lotId
      ensures Count(after, ActiveIn(other)) == Count(before, ActiveIn(other))
    {
      CountAgree(after, before, ActiveIn(other));
    }
  }

  /** A table in which every row passes the filter is counted whole. */
  lemma {:induction false} CountEvery(s: seq<Spot>, f: SpotFilter)
    requires forall k :: 0 <= k < |s| ==> Matches(f, s[k])
    ensures Count(s, f) == |s|
    decreases |s|
  {
    if s != [] {
      CountEvery(s[..|s| - 1], f);
    }
  }

  /**
   * Appending new spots (new keys, numbers above every number the lot
   * already uses, Available and active) keeps the table's invariants and
   * adds exactly their number to their lot's active count.
   */
  lemma AppendKeepsInvariants(before: seq<Spot>, after: seq<Spot>, rs: seq<Reservation>,
                              lotId: int, first: int, next0: int)
    requires |before| <= |after| && after[..|before|] == before
    requires forall k :: |before| <= k < |after| ==>
               after[k] == Spot(next0 + (k - |before|), lotId, first + (k - |before|), Available, true)
    requires forall k :: 0 <= k < |before| ==> before[k].id < next0
    requires forall k :: 0 <= k < |before| && before[k].lotId == lotId ==> before[k].spotNo < first
    requires forall k :: 0 <= k < |rs| && rs[k].spotId.Some? ==> rs[k].spotId.value < next0
    requires SpotTableOk(before)
    ensures SpotTableOk(after)
    ensures Occupancy(before, rs) ==> Occupancy(after, rs)
    ensures forall other :: Count(after, ActiveIn(other)) ==
                            Count(before, ActiveIn(other)) + (if other == lotId then |after| - |before| else 0)
  {
    var added := after[|before|..];
    assert after == before + added;
    forall other
      ensures Count(after, ActiveIn(other)) == Count(before, ActiveIn(other)) + (if other == lotId then |added| else 0)
    {
      CountAppend(before, added, ActiveIn(other));
      if other == lotId {
        CountEvery(added, ActiveIn(other));
      }
    }
    if Occupancy(before, rs) {
      forall k | 0 <= k < |after|
        ensures after[k].status == Occupied <==> HasOpenReservation(rs, after[k].id)
      {
        if k >= |before| {
          assert !HasOpenReservation(rs, after[k].id);
        } else {
          assert after[k] == before[k];
        }
      }
    }
  }

  /** The outcome of an edit_lot or spot_view request. */
  datatype EditOutcome = Saved(lotId: int) | LotNotFound | FormInvalid | BelowOccupied | DuplicateAddress

  /** The lot's fields as a successful edit stores them: text stripped, price rounded to two places. */
  function UpdatedLot(lot: Lot, form: LotForm): (r: Lot)
    requires LotFormValid(form)
    ensures r.id == lot.id && r.active == lot.active && r.maxspots == form.maxspots.value
  {
    lot.(primename := Strip(form.primename), address := Strip(form.address),
         pincode := Strip(form.pincode), priceCents := RoundCents(form.price.value),
         maxspots := form.maxspots.value)
  }

  /**
   * What a successful resize does to the lot and spot tables: the lot's
   * fields and maximum are replaced; the lot ends with exactly the new
   * maximum of active spots; a shrink deactivates active Available spots,
   * highest number first; a grow reactivates deactivated spots, highest
   * number first, and only when none is left creates new spots numbered on
   * from the lot's highest number.
   */
  ghost predicate Resized(lots0: seq<Lot>, spots0: seq<Spot>, next0: int,
                          lots1: seq<Lot>, spots1: seq<Spot>, lotId: int, form: LotForm)
    requires LotFormValid(form) && FindLot(lots0, lotId, true) >= 0
  {
    var i := FindLot(lots0, lotId, true);
    && lots1 == lots0[i := UpdatedLot(lots0[i], form)]
    && SpotsResized(spots0, spots1, next0, lotId, lots0[i].maxspots, form.maxspots.value)
  }

  /** The spot half of `Resized`, from maximum `oldMax` to `newMax`. */
  ghost predicate SpotsResized(spots0: seq<Spot>, spots1: seq<Spot>, next0: int, lotId: int, oldMax: int, newMax: int) {
    var n0 := |spots0|;
    && n0 <= |spots1|
    && Count(spots1, ActiveIn(lotId)) == newMax
    && (newMax < oldMax ==> FlippedHighestFirst(spots0, spots1, lotId, false))
    && (newMax == oldMax ==> spots1 == spots0)
    && (newMax > oldMax ==>
          && FlippedHighestFirst(spots0, spots1[..n0], lotId, true)
          && (|spots1| > n0 ==> Count(spots1[..n0], InactiveIn(lotId)) == 0)
          && forall k :: n0 <= k < |spots1| ==>
               spots1[k] == Spot(next0 + (k - n0), lotId, NextSpotNo(spots0, lotId) + (k - n0), Available, true))
  }

  /** The spot table's own invariants. */
  predicate SpotTableOk(spots: seq<Spot>) {
    SpotIdsDistinct(spots) && SpotNumbersDistinct(spots) && InactiveAvailable(spots)
  }

  /**
   * The shrink half of a resize: deactivates `n` active Available spots of
   * the lot, highest number first.
   */
  method ShrinkPool(db: Database, lotId: int, n: int)
    requires SpotTableOk(db.spots)
    requires 0 <= n <= Count(db.spots, ActiveAvailableIn(lotId))
    modifies db`spots
    ensures FlippedHighestFirst(old(db.spots), db.spots, lotId, false)
    ensures SameKeys(old(db.spots), db.spots) && SpotTableOk(db.spots)
    ensures Occupancy(old(db.spots), db.reservations) ==> Occupancy(db.spots, db.reservations)
    ensures Count(db.spots, ActiveIn(lotId)) == Count(old(db.spots), ActiveIn(lotId)) - n
    ensures forall other :: other != lotId ==> Count(db.spots, ActiveIn(other)) == Count(old(db.spots), ActiveIn(other))
  {
    var flipped := SetActiveOnHighest(db, lotId, n, false);
    FlipKeepsInvariants(old(db.spots), db.spots, lotId, false);
    SameKeysKeepInvariants(old(db.spots), db.spots, db.reservations);
  }

  /**
   * `after` is `before` grown by `n` active spots of the lot: deactivated
   * spots reactivated highest number first, new spots (keys from `next0`,
   * numbers from `first`) appended only once no deactivated spot is left;
   * keys, numbers and statuses of the existing rows unchanged and no other
   * lot's active count changed.
   */
  ghost predicate Grown(before: seq<Spot>, after: seq<Spot>, next0: int, next1: int, lotId: int, n: int, first: int) {
    && |before| <= |after|
    && next1 == next0 + (|after| - |before|)
    && FlippedHighestFirst(before, after[..|before|], lotId, true)
    && (|after| > |before| ==> Count(after[..|before|], InactiveIn(lotId)) == 0)
    && (forall k :: |before| <= k < |after| ==>
          after[k] == Spot(next0 + (k - |before|), lotId, first + (k - |before|), Available, true))
    && SameKeys(before, after[..|before|]) && SpotTableOk(after)
    && Count(after, ActiveIn(lotId)) == Count(before, ActiveIn(lotId)) + n
    && (forall other :: other != lotId ==> Count(after, ActiveIn(other)) == Count(before, ActiveIn(other)))
  }

  /** The structural half of `GrowFacts`: keys, numbers and invariants after reactivating and appending. */
  lemma GrowShape(spots0: seq<Spot>, spots1: seq<Spot>, spots2: seq<Spot>, rs: seq<Reservation>,
                  lotId: int, first: int, next0: int, m: int)
    requires SpotTableOk(spots0) && NumbersBelow(spots0, lotId, first) && SpotKeysBelow(spots0, rs, next0)
    requires FlippedHighestFirst(spots0, spots1, lotId, true)
    requires Appended(spots1, spots2, next0, lotId, first, m)
    ensures FlippedHighestFirst(spots0, spots2[..|spots0|], lotId, true)
    ensures SameKeys(spots0, spots2[..|spots0|]) && SpotTableOk(spots2)
    ensures Occupancy(spots0, rs) ==> Occupancy(spots2, rs)
    ensures Count(spots2, ActiveIn(lotId)) == Count(spots1, ActiveIn(lotId)) + (|spots2| - |spots1|)
    ensures forall other :: other != lotId ==> Count(spots2, ActiveIn(other)) == Count(spots0, ActiveIn(other))
  {
    FlipKeepsInvariants(spots0, spots1, lotId, true);
    SameKeysKeepInvariants(spots0, spots1, rs);
    AppendKeepsInvariants(spots1, spots2, rs, lotId, first, next0);
  }

  /** What the grow half achieves, from the reactivation and the appended spots. */
  lemma GrowFacts(spots0: seq<Spot>, spots1: seq<Spot>, spots2: seq<Spot>, rs: seq<Reservation>,
                  lotId: int, n: int, reused: int, first: int, next0: int, next2: int)
    requires SpotTableOk(spots0) && 0 <= n && NumbersBelow(spots0, lotId, first) && SpotKeysBelow(spots0, rs, next0)
    requires FlippedHighestFirst(spots0, spots1, lotId, true)
    requires reused == Min(Max0(n), Count(spots0, Candidates(lotId, true)))
    requires Count(spots1, Candidates(lotId, true)) == Count(spots0, Candidates(lotId, true)) - reused
    requires Count(spots1, ActiveIn(lotId)) == Count(spots0, ActiveIn(lotId)) + reused
    requires Appended(spots1, spots2, next0, lotId, first, n - reused)
    requires next2 == next0 + Max0(n - reused)
    ensures Grown(spots0, spots2, next0, next2, lotId, n, first)
    ensures Occupancy(spots0, rs) ==> Occupancy(spots2, rs)
  {
    GrowShape(spots0, spots1, spots2, rs, lotId, first, next0, n - reused);
    assert spots2[..|spots0|] == spots1;
    if |spots2| > |spots0| {
      assert Count(spots1, InactiveIn(lotId)) == 0;
    }
  }

  /**
   * The grow half of a resize: `n` more active spots for the lot,
   * reactivating deactivated spots highest number first and, once none is
   * left, appending new spots numbered on from `first`.
   */
  method GrowPool(db: Database, lotId: int, n: int, first: int)
    requires SpotTableOk(db.spots) && 0 <= n
    requires NumbersBelow(db.spots, lotId, first) && SpotKeysBelow(db.spots, db.reservations, db.nextSpotId)
    modifies db`spots, db`nextSpotId
    ensures Grown(old(db.spots), db.spots, old(db.nextSpotId), db.nextSpotId, lotId, n, first)
    ensures Occupancy(old(db.spots), db.reservations) ==> Occupancy(db.spots, db.reservations)
  {
    ghost var spots0 := db.spots;
    var reused := SetActiveOnHighest(db, lotId, n, true);
    ghost var spots1 := db.spots;
    AppendSpots(db, lotId, first, n - reused);
    GrowFacts(spots0, spots1, db.spots, db.reservations, lotId, n, reused, first, old(db.nextSpotId), db.nextSpotId);
  }

  /** A shrink to the new maximum is a resize in the sense of `SpotsResized` and `PoolResized`. */
  lemma ShrunkIsResized(spots0: seq<Spot>, spots1: seq<Spot>, next0: int, lotId: int, oldMax: int, newMax: int)
    requires newMax < oldMax && Count(spots0, ActiveIn(lotId)) == oldMax
    requires FlippedHighestFirst(spots0, spots1, lotId, false)
    requires SameKeys(spots0, spots1) && SpotTableOk(spots1)
    requires Count(spots1, ActiveIn(lotId)) == oldMax - (oldMax - newMax)
    requires forall other :: other != lotId ==> Count(spots1, ActiveIn(other)) == Count(spots0, ActiveIn(other))
    ensures SpotsResized(spots0, spots1, next0, lotId, oldMax, newMax)
    ensures PoolResized(spots0, spots1, next0, next0, lotId, newMax)
  {
    assert spots1[..|spots0|] == spots1;
  }

  /** A grow to the new maximum is a resize in the sense of `SpotsResized` and `PoolResized`. */
  lemma GrownIsResized(spots0: seq<Spot>, spots1: seq<Spot>, next0: int, next1: int, lotId: int, oldMax: int, newMax: int)
    requires oldMax < newMax && Count(spots0, ActiveIn(lotId)) == oldMax
    requires Grown(spots0, spots1, next0, next1, lotId, newMax - oldMax, NextSpotNo(spots0, lotId))
    ensures SpotsResized(spots0, spots1, next0, lotId, oldMax, newMax)
    ensures PoolResized(spots0, spots1, next0, next1, lotId, newMax)
  {
  }

  /** How a resize leaves the spot table, as far as the invariants care. */
  ghost predicate PoolResized(spots0: seq<Spot>, spots1: seq<Spot>, next0: int, next1: int, lotId: int, newMax: int) {
    && |spots0| <= |spots1| && SameKeys(spots0, spots1[..|spots0|]) && SpotTableOk(spots1)
    && next0 + (|spots1| - |spots0|) == next1
    && (forall k :: |spots0| <= k < |spots1| ==> spots1[k].id == next0 + (k - |spots0|) && spots1[k].lotId == lotId)
    && Count(spots1, ActiveIn(lotId)) == newMax
    && (forall other :: other != lotId ==> Count(spots1, ActiveIn(other)) == Count(spots0, ActiveIn(other)))
  }

  /**
   * A resize keeps the tables valid: keys stay unique and below the
   * counters, and every lot's active count matches its (new) maximum.
   */
  lemma ResizeKeepsTables(lots0: seq<Lot>, spots0: seq<Spot>, lots1: seq<Lot>, spots1: seq<Spot>, rs: seq<Reservation>,
                          users: seq<User>, nextLot: int, next0: int, next1: int, nextRes: int, i: int, lot: Lot)
    requires TablesValid(lots0, spots0, rs, users, nextLot, next0, nextRes)
    requires 0 <= i < |lots0| && lot.id == lots0[i].id && lots1 == lots0[i := lot]
    requires PoolResized(spots0, spots1, next0, next1, lot.id, lot.maxspots)
    ensures TablesValid(lots1, spots1, rs, users, nextLot, next1, nextRes)
  {
    forall k | 0 <= k < |spots1|
      ensures spots1[k].id < next1 && spots1[k].lotId < nextLot
    {
      if k < |spots0| {
        assert spots1[..|spots0|][k] == spots1[k];
      }
    }
    assert CapacityMatches(lots1, spots1);
  }

  /**
   * Brings the lot's active spots from `oldMax` to `newMax`, which is no
   * less than its active Occupied count.
   */
  method ResizePool(db: Database, lotId: int, oldMax: int, newMax: int)
    requires SpotTableOk(db.spots)
    requires Count(db.spots, ActiveIn(lotId)) == oldMax
    requires Count(db.spots, ActiveOccupiedIn(lotId)) <= newMax
    requires SpotKeysBelow(db.spots, db.reservations, db.nextSpotId)
    modifies db`spots, db`nextSpotId
    ensures SpotsResized(old(db.spots), db.spots, old(db.nextSpotId), lotId, oldMax, newMax)
    ensures PoolResized(old(db.spots), db.spots, old(db.nextSpotId), db.nextSpotId, lotId, newMax)
    ensures Occupancy(old(db.spots), db.reservations) ==> Occupancy(db.spots, db.reservations)
  {
    ghost var spots0 := db.spots;
    CountActiveSplit(spots0, lotId);
    if newMax < oldMax {
      ShrinkPool(db, lotId, oldMax - newMax);
      ShrunkIsResized(spots0, db.spots, old(db.nextSpotId), lotId, oldMax, newMax);
    } else if newMax > oldMax {
      GrowPool(db, lotId, newMax - oldMax, NextSpotNo(db.spots, lotId));
      GrownIsResized(spots0, db.spots, old(db.nextSpotId), db.nextSpotId, lotId, oldMax, newMax);
    } else {
      assert db.spots[..|spots0|] == db.spots;
    }
  }

  /**
   * The committing half of a resize, once the lot is found and the new
   * maximum accepted: `updated` is the lot's new row.
   */
  method ApplyResize(db: Database, i: int, updated: Lot)
    requires db.Valid() && 0 <= i < |db.lots| && updated.id == db.lots[i].id
    requires Count(db.spots, ActiveOccupiedIn(updated.id)) <= updated.maxspots
    modifies db
    ensures db.Valid()
    ensures old(db.Consistent()) ==> db.Consistent()
    ensures db.reservations == old(db.reservations) && db.users == old(db.users)
    ensures db.lots == old(db.lots)[i := updated]
    ensures SpotsResized(old(db.spots), db.spots, old(db.nextSpotId), updated.id, old(db.lots[i].maxspots), updated.maxspots)
    ensures |old(db.spots)| <= |db.spots| && SameKeys(old(db.spots), db.spots[..|old(db.spots)|])
  {
    ghost var spots0, next0 := db.spots, db.nextSpotId;
    ghost var lots0 := db.lots;
    var lot := db.lots[i];
    assert Count(spots0, ActiveIn(lot.id)) == lot.maxspots;
    ResizePool(db, lot.id, lot.maxspots, updated.maxspots);
    db.lots := db.lots[i := updated];
    ResizeKeepsTables(lots0, spots0, db.lots, db.spots, db.reservations, db.users,
                      db.nextLotId, next0, db.nextSpotId, db.nextReservationId, i, updated);
  }

  /**
   * edit_lot with a lot id: look the active lot up, validate the form,
   * refuse a maximum below the lot's active Occupied count, then store the
   * fields and shrink or grow the spot pool to the new maximum.
   */
  method ResizeLot(db: Database, lotId: int, form: LotForm) returns (outcome: EditOutcome)
    requires db.Valid()
    modifies db
    ensures db.Valid()
    ensures old(db.Consistent()) ==> db.Consistent()
    ensures db.reservations == old(db.reservations) && db.users == old(db.users)
    ensures outcome == LotNotFound <==> FindLot(old(db.lots), lotId, true) < 0
    ensures outcome == FormInvalid <==> FindLot(old(db.lots), lotId, true) >= 0 && !LotFormValid(form)
    ensures outcome == BelowOccupied <==>
              && FindLot(old(db.lots), lotId, true) >= 0 && LotFormValid(form)
              && form.maxspots.value < Count(old(db.spots), ActiveOccupiedIn(lotId))
    ensures outcome.Saved? || outcome == LotNotFound || outcome == FormInvalid || outcome == BelowOccupied
    ensures !outcome.Saved? ==> db.lots == old(db.lots) && db.spots == old(db.spots)
    ensures !outcome.Saved? ==> db.nextLotId == old(db.nextLotId) && db.nextSpotId == old(db.nextSpotId) && db.nextReservationId == old(db.nextReservationId)
    ensures outcome.Saved? ==>
              && outcome.lotId == lotId && LotFormValid(form) && FindLot(old(db.lots), lotId, true) >= 0
              && Resized(old(db.lots), old(db.spots), old(db.nextSpotId), db.lots, db.spots, lotId, form)
              && |old(db.spots)| <= |db.spots| && SameKeys(old(db.spots), db.spots[..|old(db.spots)|])
  {
    var i := FindLot(db.lots, lotId, true);
    if i < 0 {
      return LotNotFound;
    }
    if !LotFormValid(form) {
      return FormInvalid;
    }
    var occupied := Count(db.spots, ActiveOccupiedIn(lotId));
    var newMax := form.maxspots.value;
    if newMax < occupied {
      return BelowOccupied;
    }
    ApplyResize(db, i, UpdatedLot(db.lots[i], form));
    outcome := Saved(lotId);
  }

  /** Whether some lot, active or not, already has exactly this address. */
  predicate AddressTaken(lots: seq<Lot>, address: string) {
    exists k :: 0 <= k < |lots| && lots[k].address == address
  }

  /** The row edit_lot inserts for a new lot: text stripped, price rounded, active. */
  function NewLot(id: int, form: LotForm): (r: Lot)
    requires LotFormValid(form)
    ensures r.id == id && r.active && r.maxspots == form.maxspots.value && r.maxspots >= 1
  {
    Lot(id, Strip(form.primename), RoundCents(form.price.value), Strip(form.address),
        Strip(form.pincode), form.maxspots.value, true)
  }

  /** A new lot with its spots numbered 1 to maxspots keeps the tables valid. */
  lemma CreateKeepsTables(lots0: seq<Lot>, spots0: seq<Spot>, lots1: seq<Lot>, spots1: seq<Spot>, added: seq<Spot>,
                          rs: seq<Reservation>, users: seq<User>, lot: Lot,
                          nextLot1: int, next0: int, next1: int, nextRes: int)
    requires TablesValid(lots0, spots0, rs, users, lot.id, next0, nextRes)
    requires nextLot1 == lot.id + 1 && lots1 == lots0 + [lot] && lot.maxspots == |added|
    requires spots1 == spots0 + added && next1 == next0 + |added|
    requires forall k :: 0 <= k < |added| ==> added[k] == Spot(next0 + k, lot.id, 1 + k, Available, true)
    ensures TablesValid(lots1, spots1, rs, users, nextLot1, next1, nextRes)
    ensures Occupancy(spots0, rs) ==> Occupancy(spots1, rs)
  {
    assert spots1[..|spots0|] == spots0;
    AppendKeepsInvariants(spots0, spots1, rs, lot.id, 1, next0);
    forall k | 0 <= k < |lots1|
      ensures Count(spots1, ActiveIn(lots1[k].id)) == lots1[k].maxspots
    {
      if k < |lots0| {
        assert lots1[k] == lots0[k];
      }
    }
    forall k | 0 <= k < |spots1|
      ensures spots1[k].id < next1 && spots1[k].lotId < nextLot1
    {
      if k >= |spots0| {
        assert spots1[k] == added[k - |spots0|];
      }
    }
  }

  /** The committing half of lot creation: the lot row, then its spots. */
  method ApplyCreate(db: Database, lot: Lot)
    requires db.Valid() && lot.id == db.nextLotId && lot.maxspots >= 0
    modifies db
    ensures db.Valid()
    ensures old(db.Consistent()) ==> db.Consistent()
    ensures db.reservations == old(db.reservations) && db.users == old(db.users)
    ensures db.nextLotId == old(db.nextLotId) + 1
    ensures db.lots == old(db.lots) + [lot]
    ensures |db.spots| == |old(db.spots)| + lot.maxspots && db.spots[..|old(db.spots)|] == old(db.spots)
    ensures forall k :: |old(db.spots)| <= k < |db.spots| ==>
              db.spots[k] == Spot(old(db.nextSpotId) + (k - |old(db.spots)|), lot.id, 1 + (k - |old(db.spots)|), Available, true)
  {
    ghost var lots0, spots0, next0 := db.lots, db.spots, db.nextSpotId;
    db.lots := db.lots + [lot];
    db.nextLotId := db.nextLotId + 1;
    AppendSpots(db, lot.id, 1, lot.maxspots);
    ghost var added := db.spots[|spots0|..];
    assert db.spots == spots0 + added;
    CreateKeepsTables(lots0, spots0, db.lots, db.spots, added, db.reservations, db.users, lot,
                      db.nextLotId, next0, db.nextSpotId, db.nextReservationId);
  }

  /**
   * edit_lot without a lot id: validate the form, refuse an address some
   * lot already has, otherwise insert the lot and its spots 1..maxspots.
   */
  method CreateLot(db: Database, form: LotForm) returns (outcome: EditOutcome)
    requires db.Valid()
    modifies db
    ensures db.Valid()
    ensures old(db.Consistent()) ==> db.Consistent()
    ensures db.reservations == old(db.reservations) && db.users == old(db.users)
    ensures outcome == FormInvalid <==> !LotFormValid(form)
    ensures outcome == DuplicateAddress <==> LotFormValid(form) && AddressTaken(old(db.lots), Strip(form.address))
    ensures outcome.Saved? || outcome == FormInvalid || outcome == DuplicateAddress
    ensures !outcome.Saved? ==> db.lots == old(db.lots) && db.spots == old(db.spots)
    ensures !outcome.Saved? ==> db.nextLotId == old(db.nextLotId) && db.nextSpotId == old(db.nextSpotId) && db.nextReservationId == old(db.nextReservationId)
    ensures outcome.Saved? ==>
              && LotFormValid(form) && outcome.lotId == old(db.nextLotId)
              && db.lots == old(db.lots) + [NewLot(outcome.lotId, form)]
              && |db.spots| == |old(db.spots)| + form.maxspots.value
              && db.spots[..|old(db.spots)|] == old(db.spots)
              && forall k :: |old(db.spots)| <= k < |db.spots| ==>
                   db.spots[k] == Spot(old(db.nextSpotId) + (k - |old(db.spots)|), outcome.lotId,
                                       1 + (k - |old(db.spots)|), Available, true)
  {
    if !LotFormValid(form) {
      return FormInvalid;
    }
    if AddressTaken(db.lots, Strip(form.address)) {
      return DuplicateAddress;
    }
    outcome := Saved(db.nextLotId);
    ApplyCreate(db, NewLot(db.nextLotId, form));
  }

  /**
   * The edit_lot route: `/parking-lot/<lot_id>` resizes, `/parking-lot`
   * creates; a lot id of 0 is falsy and also creates.
   */
  method EditLot(db: Database, lotId: Option<int>, form: LotForm) returns (outcome: EditOutcome)
    requires db.Valid()
    modifies db
    ensures db.Valid()
    ensures old(db.Consistent()) ==> db.Consistent()
    ensures db.reservations == old(db.reservations) && db.users == old(db.users)
    ensures outcome == FormInvalid <==> (lotId.None? || lotId.value == 0 || FindLot(old(db.lots), lotId.value, true) >= 0) && !LotFormValid(form)
    ensures lotId.Some? && lotId.value != 0 ==>
              outcome != DuplicateAddress && (outcome.Saved? ==> outcome.lotId == lotId.value)
    ensures lotId.None? || lotId.value == 0 ==>
              outcome != LotNotFound && outcome != BelowOccupied && (outcome.Saved? ==> outcome.lotId == old(db.nextLotId))
    ensures !outcome.Saved? ==> db.lots == old(db.lots) && db.spots == old(db.spots)
    ensures !outcome.Saved? ==> db.nextLotId == old(db.nextLotId) && db.nextSpotId == old(db.nextSpotId) && db.nextReservationId == old(db.nextReservationId)
    // the resize branch
    ensures lotId.Some? && lotId.value != 0 ==>
              && (outcome == LotNotFound <==> FindLot(old(db.lots), lotId.value, true) < 0)
              && (outcome == BelowOccupied <==>
                    && FindLot(old(db.lots), lotId.value, true) >= 0 && LotFormValid(form)
                    && form.maxspots.value < Count(old(db.spots), ActiveOccupiedIn(lotId.value)))
              && (outcome.Saved? ==>
                    Resized(old(db.lots), old(db.spots), old(db.nextSpotId), db.lots, db.spots, lotId.value, form))
    // the create branch
    ensures lotId.None? || lotId.value == 0 ==>
              && (outcome == DuplicateAddress <==> LotFormValid(form) && AddressTaken(old(db.lots), Strip(form.address)))
              && (outcome.Saved? ==>
                    && db.lots == old(db.lots) + [NewLot(outcome.lotId, form)]
                    && |db.spots| == |old(db.spots)| + form.maxspots.value
                    && db.spots[..|old(db.spots)|] == old(db.spots)
                    && forall k :: |old(db.spots)| <= k < |db.spots| ==>
                         db.spots[k] == Spot(old(db.nextSpotId) + (k - |old(db.spots)|), outcome.lotId,
                                             1 + (k - |old(db.spots)|), Available, true))
  {
    if lotId.Some? && lotId.value != 0 {
      outcome := ResizeLot(db, lotId.value, form);
    } else {
      outcome := CreateLot(db, form);
    }
  }

  // ---------------------------------------------------------------------------
  // spot_view: deleting one spot

  /**
   * Deleting a spot row leaves its reservations in place with spot_id
   * cleared (SQLAlchemy's default for a one-to-many without a delete cascade).
   */
  function Detach(rs: seq<Reservation>, spotId: int): (r: seq<Reservation>)
    ensures |r| == |rs|
    ensures forall k :: 0 <= k < |r| ==> r[k].spotId != Some(spotId) && r[k] == rs[k].(spotId := r[k].spotId)
    ensures forall k :: 0 <= k < |r| && rs[k].spotId == Some(spotId) ==> r[k].spotId.None?
    ensures forall k :: 0 <= k < |r| && rs[k].spotId != Some(spotId) ==> r[k] == rs[k]
  {
    seq(|rs|, k requires 0 <= k < |rs| => if rs[k].spotId == Some(spotId) then rs[k].(spotId := None) else rs[k])
  }

  /** Clearing one spot's references keeps every other spot's open reservations and the occupancy rules. */
  lemma DetachKeepsOthers(rs: seq<Reservation>, spotId: int)
    ensures forall other :: other != spotId ==> (HasOpenReservation(Detach(rs, spotId), other) <==> HasOpenReservation(rs, other))
    ensures OneOpenPerSpot(rs) ==> OneOpenPerSpot(Detach(rs, spotId))
    ensures OpenVehiclesDistinct(rs) ==> OpenVehiclesDistinct(Detach(rs, spotId))
    ensures ReservationIdsDistinct(rs) ==> ReservationIdsDistinct(Detach(rs, spotId))
  {
    var d := Detach(rs, spotId);
    forall other | other != spotId
      ensures HasOpenReservation(d, other) <==> HasOpenReservation(rs, other)
    {
      if HasOpenReservation(rs, other) {
        var j :| 0 <= j < |rs| && IsOpenOn(rs[j], other);
        assert IsOpenOn(d[j], other);
      }
      if HasOpenReservation(d, other) {
        var j :| 0 <= j < |d| && IsOpenOn(d[j], other);
        assert IsOpenOn(rs[j], other);
      }
    }
  }

  /** The outcome of a spot_view delete request. */
  datatype DeleteOutcome = SpotDeleted | SpotNotFound | SpotOccupied

  /** The lot table after a delete: the spot's lot loses one from maxspots unless it is already 0. */
  predicate MaxDecremented(before: seq<Lot>, after: seq<Lot>, lotId: int) {
    && |after| == |before|
    && forall k :: 0 <= k < |before| ==>
         after[k] == (if before[k].id == lotId && before[k].maxspots > 0
                      then before[k].(maxspots := before[k].maxspots - 1) else before[k])
  }

  /** The lot update spot_view makes, at the index of the lot with that id. */
  lemma DecrementAt(before: seq<Lot>, lotId: int, j: int)
    requires LotIdsDistinct(before) && j == FindLot(before, lotId, false)
    ensures MaxDecremented(before, if j >= 0 && before[j].maxspots > 0
                                   then before[j := before[j].(maxspots := before[j].maxspots - 1)] else before, lotId)
  {
  }

  /** Removing an active spot and decrementing its lot keeps every lot's capacity. */
  lemma DeleteKeepsCapacity(lots0: seq<Lot>, spots0: seq<Spot>, lots1: seq<Lot>, spots1: seq<Spot>, i: int)
    requires CapacityMatches(lots0, spots0)
    requires 0 <= i < |spots0| && spots0[i].active
    requires spots1 == spots0[..i] + spots0[i + 1..]
    requires MaxDecremented(lots0, lots1, spots0[i].lotId)
    ensures CapacityMatches(lots1, spots1)
  {
    forall k | 0 <= k < |lots1|
      ensures Count(spots1, ActiveIn(lots1[k].id)) == lots1[k].maxspots
    {
      CountRemove(spots0, i, ActiveIn(lots1[k].id));
    }
  }

  /** Removing a spot keeps the spot-table invariants and the keys below their counters. */
  lemma DeleteKeepsKeys(lots0: seq<Lot>, spots0: seq<Spot>, rs0: seq<Reservation>,
                        lots1: seq<Lot>, spots1: seq<Spot>, rs1: seq<Reservation>,
                        nextLot: int, nextSpot: int, nextRes: int, i: int)
    requires 0 <= i < |spots0| && spots1 == spots0[..i] + spots0[i + 1..]
    requires rs1 == Detach(rs0, spots0[i].id)
    requires MaxDecremented(lots0, lots1, spots0[i].lotId)
    requires SpotTableOk(spots0) && LotIdsDistinct(lots0) && ReservationIdsDistinct(rs0)
    requires KeysBelow(lots0, spots0, rs0, nextLot, nextSpot, nextRes)
    ensures SpotTableOk(spots1) && LotIdsDistinct(lots1) && ReservationIdsDistinct(rs1)
    ensures KeysBelow(lots1, spots1, rs1, nextLot, nextSpot, nextRes)
  {
    DetachKeepsOthers(rs0, spots0[i].id);
    assert forall k :: 0 <= k < |spots1| ==> spots1[k] == spots0[if k < i then k else k + 1];
  }

  /** Removing an Available spot and clearing its references keeps the occupancy rules. */
  lemma DeleteKeepsConsistent(spots0: seq<Spot>, rs0: seq<Reservation>, spots1: seq<Spot>, rs1: seq<Reservation>, i: int)
    requires SpotIdsDistinct(spots0) && TablesConsistent(spots0, rs0)
    requires 0 <= i < |spots0| && spots0[i].status == Available
    requires spots1 == spots0[..i] + spots0[i + 1..]
    requires rs1 == Detach(rs0, spots0[i].id)
    ensures TablesConsistent(spots1, rs1)
  {
    var gone := spots0[i];
    DetachKeepsOthers(rs0, gone.id);
    forall k | 0 <= k < |spots1|
      ensures spots1[k].status == Occupied <==> HasOpenReservation(rs1, spots1[k].id)
    {
      var m := if k < i then k else k + 1;
      assert spots1[k] == spots0[m] && spots0[m].id != gone.id;
    }
  }

  /** The three lemmas above, combined over the whole database. */
  lemma DeleteKeepsTables(lots0: seq<Lot>, spots0: seq<Spot>, rs0: seq<Reservation>,
                          lots1: seq<Lot>, spots1: seq<Spot>, rs1: seq<Reservation>,
                          users: seq<User>, nextLot: int, nextSpot: int, nextRes: int, i: int)
    requires TablesValid(lots0, spots0, rs0, users, nextLot, nextSpot, nextRes)
    requires 0 <= i < |spots0| && spots0[i].active && spots0[i].status == Available
    requires spots1 == spots0[..i] + spots0[i + 1..]
    requires rs1 == Detach(rs0, spots0[i].id)
    requires MaxDecremented(lots0, lots1, spots0[i].lotId)
    ensures TablesValid(lots1, spots1, rs1, users, nextLot, nextSpot, nextRes)
    ensures TablesConsistent(spots0, rs0) ==> TablesConsistent(spots1, rs1)
  {
    DeleteKeepsCapacity(lots0, spots0, lots1, spots1, i);
    DeleteKeepsKeys(lots0, spots0, rs0, lots1, spots1, rs1, nextLot, nextSpot, nextRes, i);
    if TablesConsistent(spots0, rs0) {
      DeleteKeepsConsistent(spots0, rs0, spots1, rs1, i);
    }
  }

  /** The committing half of spot_view: remove the spot, clear its references, decrement its lot. */
  method ApplyDelete(db: Database, i: int)
    requires db.Valid() && 0 <= i < |db.spots| && db.spots[i].active && db.spots[i].status == Available
    modifies db
    ensures db.Valid()
    ensures old(db.Consistent()) ==> db.Consistent()
    ensures db.users == old(db.users)
    ensures db.spots == old(db.spots)[..i] + old(db.spots)[i + 1..]
    ensures db.reservations == Detach(old(db.reservations), old(db.spots)[i].id)
    ensures MaxDecremented(old(db.lots), db.lots, old(db.spots)[i].lotId)
  {
    ghost var lots0, spots0, rs0 := db.lots, db.spots, db.reservations;
    var spot := db.spots[i];
    var j := FindLot(db.lots, spot.lotId, false);
    DecrementAt(db.lots, spot.lotId, j);
    if j >= 0 && db.lots[j].maxspots > 0 {
      db.lots := db.lots[j := db.lots[j].(maxspots := db.lots[j].maxspots - 1)];
    }
    db.spots := db.spots[..i] + db.spots[i + 1..];
    db.reservations := Detach(db.reservations, spot.id);
    DeleteKeepsTables(lots0, spots0, rs0, db.lots, db.spots, db.reservations, db.users,
                      db.nextLotId, db.nextSpotId, db.nextReservationId, i);
  }

  /**
   * spot_view on submit: the active spot is looked up (404 otherwise); an
   * Occupied spot is refused; an Available one is deleted and its lot's
   * maximum decremented, not below 0.
   */
  method DeleteSpot(db: Database, spotId: int) returns (outcome: DeleteOutcome)
    requires db.Valid()
    modifies db
    ensures db.Valid()
    ensures old(db.Consistent()) ==> db.Consistent()
    ensures db.users == old(db.users)
    ensures outcome == SpotNotFound <==> FindSpot(old(db.spots), spotId, true) < 0
    ensures outcome == SpotOccupied <==>
              FindSpot(old(db.spots), spotId, true) >= 0 && old(db.spots)[FindSpot(old(db.spots), spotId, true)].status == Occupied
    ensures outcome != SpotDeleted ==>
              db.lots == old(db.lots) && db.spots == old(db.spots) && db.reservations == old(db.reservations)
    ensures outcome != SpotDeleted ==> db.nextLotId == old(db.nextLotId) && db.nextSpotId == old(db.nextSpotId) && db.nextReservationId == old(db.nextReservationId)
    ensures outcome == SpotDeleted ==>
              var i := FindSpot(old(db.spots), spotId, true);
              && 0 <= i < |old(db.spots)|
              && db.spots == old(db.spots)[..i] + old(db.spots)[i + 1..]
              && db.reservations == Detach(old(db.reservations), spotId)
              && MaxDecremented(old(db.lots), db.lots, old(db.spots)[i].lotId)
  {
    var i := FindSpot(db.spots, spotId, true);
    if i < 0 {
      return SpotNotFound;
    }
    if db.spots[i].status != Available {
      return SpotOccupied;
    }
    ApplyDelete(db, i);
    outcome := SpotDeleted;
  }

  // ---------------------------------------------------------------------------
  // Occupied counts: dashboard and lot_search

  /** A lot as the dashboard and the search results list it, with its occupied count. */
  datatype LotRow = LotRow(lot: Lot, occupied: nat)

  /** The dashboard's inner join keeps an active lot only when it has at least one active spot. */
  predicate OnDashboard(spots: seq<Spot>, lot: Lot) {
    lot.active && Count(spots, ActiveIn(lot.id)) > 0
  }

  /**
   * dashboard: one row per listed lot, in table order, with the number of
   * its active spots whose status is 'O'; with the tables valid, that
   * number never exceeds the lot's maximum.
   */
  method Dashboard(db: Database) returns (rows: seq<LotRow>)
    ensures forall j :: 0 <= j < |rows| ==>
              && rows[j].lot in db.lots && OnDashboard(db.spots, rows[j].lot)
              && rows[j].occupied == Count(db.spots, ActiveOccupiedIn(rows[j].lot.id))
    ensures forall k :: 0 <= k < |db.lots| && OnDashboard(db.spots, db.lots[k]) ==>
              LotRow(db.lots[k], Count(db.spots, ActiveOccupiedIn(db.lots[k].id))) in rows
    ensures db.Valid() ==> forall j :: 0 <= j < |rows| ==> rows[j].occupied <= rows[j].lot.maxspots
    ensures db.Valid() ==> forall i, j :: 0 <= i < j < |rows| ==>
              FindLot(db.lots, rows[i].lot.id, false) < FindLot(db.lots, rows[j].lot.id, false)
  {
    rows := [];
    ghost var ids: seq<int> := [];
    for k := 0 to |db.lots|
      invariant forall j :: 0 <= j < |rows| ==>
                  && rows[j].lot in db.lots[..k] && OnDashboard(db.spots, rows[j].lot)
                  && rows[j].occupied == Count(db.spots, ActiveOccupiedIn(rows[j].lot.id))
      invariant forall k' :: 0 <= k' < k && OnDashboard(db.spots, db.lots[k']) ==>
                  LotRow(db.lots[k'], Count(db.spots, ActiveOccupiedIn(db.lots[k'].id))) in rows
      invariant |ids| == |rows| && forall j :: 0 <= j < |rows| ==> rows[j].lot.id == ids[j]
      invariant db.Valid() ==> ListedInOrder(db.lots, ids, k)
    {
      var lot := db.lots[k];
      if db.Valid() {
        ListedInOrderStep(db.lots, ids, k, lot.active && Count(db.spots, ActiveIn(lot.id)) > 0);
      }
      if lot.active && Count(db.spots, ActiveIn(lot.id)) > 0 {
        ids := ids + [lot.id];
        rows := rows + [LotRow(lot, Count(db.spots, ActiveOccupiedIn(lot.id)))];
      }
    }
    assert db.lots[..|db.lots|] == db.lots;
    if db.Valid() {
      forall j | 0 <= j < |rows|
        ensures rows[j].occupied <= rows[j].lot.maxspots
      {
        CountActiveSplit(db.spots, rows[j].lot.id);
      }
    }
  }

  /** Whether lot_search's filter for the criterion selects the lot (the user_id join aside). */
  predicate SearchHit(c: Criterion, lot: Lot, query: string) {
    match c
    case ByAddress => Contains(Lower(lot.address), Lower(query))
    case ByPincode => lot.pincode == query
    case ByUserId => false
  }

  /**
   * The listing loop of lot_search: every lot, active or not, that the
   * criterion selects for the query, in table order, with the number of
   * its spots whose status is 'O', deactivated spots included.
   */
  method ListMatches(db: Database, c: Criterion, q: string) returns (rows: seq<LotRow>)
    ensures forall j :: 0 <= j < |rows| ==>
              && rows[j].lot in db.lots && SearchHit(c, rows[j].lot, q)
              && rows[j].occupied == Count(db.spots, OccupiedIn(rows[j].lot.id))
    ensures forall k :: 0 <= k < |db.lots| && SearchHit(c, db.lots[k], q) ==>
              LotRow(db.lots[k], Count(db.spots, OccupiedIn(db.lots[k].id))) in rows
    ensures db.Valid() ==> forall i, j :: 0 <= i < j < |rows| ==>
              FindLot(db.lots, rows[i].lot.id, false) < FindLot(db.lots, rows[j].lot.id, false)
  {
    rows := [];
    ghost var ids: seq<int> := [];
    for k := 0 to |db.lots|
      invariant forall j :: 0 <= j < |rows| ==>
                  && rows[j].lot in db.lots[..k] && SearchHit(c, rows[j].lot, q)
                  && rows[j].occupied == Count(db.spots, OccupiedIn(rows[j].lot.id))
      invariant forall k' :: 0 <= k' < k && SearchHit(c, db.lots[k'], q) ==>
                  LotRow(db.lots[k'], Count(db.spots, OccupiedIn(db.lots[k'].id))) in rows
      invariant |ids| == |rows| && forall j :: 0 <= j < |rows| ==> rows[j].lot.id == ids[j]
      invariant db.Valid() ==> ListedInOrder(db.lots, ids, k)
    {
      var lot := db.lots[k];
      if db.Valid() {
        ListedInOrderStep(db.lots, ids, k, SearchHit(c, lot, q));
      }
      if SearchHit(c, lot, q) {
        ids := ids + [lot.id];
        rows := rows + [LotRow(lot, Count(db.spots, OccupiedIn(lot.id)))];
      }
    }
    assert db.lots[..|db.lots|] == db.lots;
  }

  /**
   * lot_search on the address or pincode criterion: the lots whose address
   * contains the stripped query ignoring case (ILIKE '%q%'), or whose
   * pincode equals it; nothing for an invalid form.
   */
  method LotSearch(db: Database, searchBy: string, query: string) returns (rows: seq<LotRow>)
    requires ParseCriterion(searchBy) != Some(ByUserId)
    ensures !SearchFormValid(searchBy, query) ==> rows == []
    ensures SearchFormValid(searchBy, query) ==>
              && (forall j :: 0 <= j < |rows| ==>
                    && rows[j].lot in db.lots && SearchHit(ParseCriterion(searchBy).value, rows[j].lot, Strip(query))
                    && rows[j].occupied == Count(db.spots, OccupiedIn(rows[j].lot.id)))
              && (forall k :: 0 <= k < |db.lots| && SearchHit(ParseCriterion(searchBy).value, db.lots[k], Strip(query)) ==>
                    LotRow(db.lots[k], Count(db.spots, OccupiedIn(db.lots[k].id))) in rows)
    ensures db.Valid() ==> forall i, j :: 0 <= i < j < |rows| ==>
              FindLot(db.lots, rows[i].lot.id, false) < FindLot(db.lots, rows[j].lot.id, false)
  {
    if !SearchFormValid(searchBy, query) {
      return [];
    }
    rows := ListMatches(db, ParseCriterion(searchBy).value, Strip(query));
  }

  /**
   * The search counts status 'O' over all of a lot's spots and the
   * dashboard only over its active ones; since only Available spots are
   * deactivated, the two agree.
   */
  lemma SearchCountIsDashboardCount(spots: seq<Spot>, lotId: int)
    requires InactiveAvailable(spots)
    ensures Count(spots, OccupiedIn(lotId)) == Count(spots, ActiveOccupiedIn(lotId))
  {
    CountAvailableSplit(spots, lotId);
  }

  // ---------------------------------------------------------------------------
  // Running cost: spot_details

  /**
   * spot_details as written: for an active spot, the running cost of the
   * FIRST reservation ever made on it, open or closed, up to `now`; None
   * where the handler answers 404.
   */
  function FirstReservationCost(spots: seq<Spot>, rs: seq<Reservation>, spotId: int, now: int): (r: Option<real>)
    ensures r.Some? <==> FindSpot(spots, spotId, true) >= 0 && exists j :: 0 <= j < |rs| && rs[j].spotId == Some(spotId)
    ensures r.Some? ==> exists j :: 0 <= j < |rs| && rs[j].spotId == Some(spotId)
                          && (forall k :: 0 <= k < j ==> rs[k].spotId != Some(spotId))
                          && r.value == Cost(rs[j].parkingTime, now, rs[j].rateCents)
  {
    if FindSpot(spots, spotId, true) < 0 then None
    else
      var j := FirstReservationOn(rs, spotId);
      if j < 0 then None else Some(Cost(rs[j].parkingTime, now, rs[j].rateCents))
  }

  /** The open reservation of a spot: the row index, -1 when it has none. */
  function OpenReservationOn(rs: seq<Reservation>, spotId: int): (i: int)
    ensures -1 <= i < |rs|
    ensures i >= 0 ==> IsOpenOn(rs[i], spotId)
    ensures i == -1 <==> !HasOpenReservation(rs, spotId)
  {
    if rs == [] then -1
    else if IsOpenOn(rs[0], spotId) then 0
    else
      var j := OpenReservationOn(rs[1..], spotId);
      if j == -1 then -1 else j + 1
  }

  /**
   * The estimate as evidently intended: the running cost of the spot's
   * open reservation up to `now`; None when the spot is not active or is
   * not parked in.
   */
  function RunningCost(spots: seq<Spot>, rs: seq<Reservation>, spotId: int, now: int): (r: Option<real>)
    ensures r.Some? <==> FindSpot(spots, spotId, true) >= 0 && HasOpenReservation(rs, spotId)
    ensures OneOpenPerSpot(rs) ==> forall j :: 0 <= j < |rs| && IsOpenOn(rs[j], spotId) && r.Some? ==>
              r.value == Cost(rs[j].parkingTime, now, rs[j].rateCents)
  {
    if FindSpot(spots, spotId, true) < 0 then None
    else
      var j := OpenReservationOn(rs, spotId);
      if j < 0 then None else Some(Cost(rs[j].parkingTime, now, rs[j].rateCents))
  }

  /**
   * A spot whose first reservation was released and which was booked
   * again: spot_details as written bills the closed first stay from its
   * start (3 hours), where the car parked now has been there 1 hour.
   */
  lemma FirstReservationCostIsStale()
    ensures var spots := [Spot(1, 1, 1, Occupied, true)];
            var rs := [Reservation(1, Some(1), 7, "MH12AB1234", 0, Some(3600), 2000, Some(20.0), "1 Main Road", "City Mall"),
                       Reservation(2, Some(1), 8, "KA01CD5678", 7200, None, 2000, None, "1 Main Road", "City Mall")];
            && TablesConsistent(spots, rs)
            && FirstReservationCost(spots, rs, 1, 10800) == Some(60.0)
            && RunningCost(spots, rs, 1, 10800) == Some(20.0)
  {
    var spots := [Spot(1, 1, 1, Occupied, true)];
    var rs := [Reservation(1, Some(1), 7, "MH12AB1234", 0, Some(3600), 2000, Some(20.0), "1 Main Road", "City Mall"),
               Reservation(2, Some(1), 8, "KA01CD5678", 7200, None, 2000, None, "1 Main Road", "City Mall")];
    assert IsOpenOn(rs[1], 1);
    assert OpenReservationOn(rs, 1) == 1;
  }

  // ---------------------------------------------------------------------------
  // A worked resize

  /** Lot 1 with maximum 5: spots 1 and 2 Occupied, 3 to 5 Available. */
  function FiveSpots(): (s: seq<Spot>)
    ensures |s| == 5 && Count(s, ActiveIn(1)) == 5
  {
    var s := [Spot(1, 1, 1, Occupied, true), Spot(2, 1, 2, Occupied, true), Spot(3, 1, 3, Available, true),
              Spot(4, 1, 4, Available, true), Spot(5, 1, 5, Available, true)];
    CountEvery(s, ActiveIn(1));
    s
  }

  /** A table of five rows is counted row by row. */
  lemma CountFive(s: seq<Spot>, f: SpotFilter)
    requires |s| == 5
    ensures Count(s, f) == (if Matches(f, s[0]) then 1 else 0) + (if Matches(f, s[1]) then 1 else 0)
                         + (if Matches(f, s[2]) then 1 else 0) + (if Matches(f, s[3]) then 1 else 0)
                         + (if Matches(f, s[4]) then 1 else 0)
  {
    var s4, s3, s2, s1 := s[..4], s[..3], s[..2], s[..1];
    assert s4[..3] == s3 && s3[..2] == s2 && s2[..1] == s1 && s1[..0] == [];
    assert Count(s, f) == Count(s4, f) + (if Matches(f, s[4]) then 1 else 0);
    assert Count(s4, f) == Count(s3, f) + (if Matches(f, s[3]) then 1 else 0);
    assert Count(s3, f) == Count(s2, f) + (if Matches(f, s[2]) then 1 else 0);
    assert Count(s2, f) == Count(s1, f) + (if Matches(f, s[1]) then 1 else 0);
  }

  /**
   * Resizing that lot to 3 can only deactivate spots 4 and 5: the
   * Occupied spots stay, and the highest Available numbers go first.
   */
  lemma ShrinkExample(after: seq<Spot>)
    requires SpotsResized(FiveSpots(), after, 6, 1, 5, 3)
    ensures after == FiveSpots()[3 := Spot(4, 1, 4, Available, false)][4 := Spot(5, 1, 5, Available, false)]
  {
    var before := FiveSpots();
    assert FlippedHighestFirst(before, after, 1, false);
    CountFive(after, ActiveIn(1));
    assert after[0] == before[0] && after[1] == before[1];
    if after[3] == before[3] {
      assert false;
    }
    if after[4] == before[4] {
      assert false;
    }
  }
}
