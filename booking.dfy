/**
 * The user handlers of user/user.py: the spot preselection and the
 * booking of book_spot, the release of spot_release, the availability
 * counts of user_dashboard and the lot search of parking_search.
 */
module Booking {
  import opened Wrappers
  import opened Text
  import opened Billing
  import opened Models
  import opened Forms
  import opened Tables
  import opened Store
  import Plate
  import Admin

  // ---------------------------------------------------------------------------
  // Preselection: book_spot on GET

  /** The selected spot with the smallest id (the first such on a tie), or -1 when the filter selects nothing. */
  function LowestIdMatch(s: seq<Spot>, f: SpotFilter): (i: int)
    ensures -1 <= i < |s|
    ensures i == -1 <==> Count(s, f) == 0
    ensures i >= 0 ==> Matches(f, s[i]) && forall k :: 0 <= k < |s| && Matches(f, s[k]) ==> s[i].id <= s[k].id
  {
    if s == [] then -1
    else
      var j := LowestIdMatch(s[..|s| - 1], f);
      var last := |s| - 1;
      if !Matches(f, s[last]) then j
      else if j == -1 || s[last].id < s[j].id then last
      else j
  }

  /**
   * book_spot on GET as written: the id of the lot's spot with status 'A'
   * and the smallest id, deactivated spots included (`lot.spots`); None
   * where the handler refuses with 'No available spots'.
   */
  function PreselectedSpot(spots: seq<Spot>, lotId: int): (r: Option<int>)
    ensures r.None? <==> Count(spots, AvailableIn(lotId)) == 0
    ensures r.Some? ==> exists i :: 0 <= i < |spots| && spots[i].id == r.value && Matches(AvailableIn(lotId), spots[i])
    ensures r.Some? ==> forall k :: 0 <= k < |spots| && Matches(AvailableIn(lotId), spots[k]) ==> r.value <= spots[k].id
  {
    var i := LowestIdMatch(spots, AvailableIn(lotId));
    if i < 0 then None else Some(spots[i].id)
  }

  /**
   * The preselection as evidently intended: the active spot with status
   * 'A' and the smallest id. With distinct spot ids, the spot it names is
   * one the booking step finds active and Available in the lot.
   */
  function PreselectedActiveSpot(spots: seq<Spot>, lotId: int): (r: Option<int>)
    ensures r.None? <==> Count(spots, ActiveAvailableIn(lotId)) == 0
    ensures r.Some? ==> forall k :: 0 <= k < |spots| && Matches(ActiveAvailableIn(lotId), spots[k]) ==> r.value <= spots[k].id
    ensures r.Some? && SpotIdsDistinct(spots) ==>
              var i := FindSpot(spots, r.value, true);
              0 <= i < |spots| && spots[i].status == Available && spots[i].lotId == lotId
  {
    var i := LowestIdMatch(spots, ActiveAvailableIn(lotId));
    if i < 0 then None
    else
      FindActiveSpotAt(spots, i);
      Some(spots[i].id)
  }

  /** With distinct ids, looking an active spot up by its id finds its own row. */
  lemma FindActiveSpotAt(spots: seq<Spot>, i: int)
    requires 0 <= i < |spots| && spots[i].active
    ensures SpotIdsDistinct(spots) ==> FindSpot(spots, spots[i].id, true) == i
  {
    var found := FindSpot(spots, spots[i].id, true);
    if SpotIdsDistinct(spots) && found != i {
      assert false;
    }
  }

  /** A lot of maximum 1 whose spot 1 was deactivated and spot 2 added back. */
  function ReopenedLot(): (lots: seq<Lot>)
    ensures |lots| == 1
  {
    [Lot(1, "City Mall", 2000, "1 Main Road", "400001", 1, true)]
  }

  /** Spot 1 deactivated, spot 2 active, both free. */
  function ReopenedSpots(): (spots: seq<Spot>)
    ensures |spots| == 2 && !spots[0].active && spots[1].active
  {
    [Spot(1, 1, 1, Available, false), Spot(2, 1, 2, Available, true)]
  }

  /** The reopened lot is a state the tables can be in: it keeps every table invariant. */
  lemma ReopenedStateValid()
    ensures TablesValid(ReopenedLot(), ReopenedSpots(), [], [], 2, 3, 1)
  {
    var spots := ReopenedSpots();
    assert spots[..1] == [spots[0]] && [spots[0]][..0] == [];
    assert Count(spots, ActiveIn(1)) == 1;
  }

  /**
   * In the reopened lot the handler preselects the deactivated spot 1,
   * which the booking step then does not find (404), while active spot 2
   * is free.
   */
  lemma PreselectedSpotMayBeDeactivated()
    ensures PreselectedSpot(ReopenedSpots(), 1) == Some(1)
    ensures FindSpot(ReopenedSpots(), 1, true) == -1
    ensures PreselectedActiveSpot(ReopenedSpots(), 1) == Some(2)
  {
    var spots := ReopenedSpots();
    assert LowestIdMatch(spots, AvailableIn(1)) == 0;
    assert LowestIdMatch(spots, ActiveAvailableIn(1)) == 1;
  }

  // ---------------------------------------------------------------------------
  // Booking: book_spot on POST

  /** The outcome of a booking request. */
  datatype BookOutcome =
    | Booked(reservationId: int)
    | LotNotFound
    | FormInvalid
    | SpotNotFound
    | SpotNotAvailable
    | BadPlate
    | VehicleAlreadyParked

  /** The vehicle number as the handler checks and stores it: stripped and upper-cased. */
  function Normalised(vehicle: string): (v: string)
    ensures Upper(v) == v && Strip(v) == v && |v| <= |vehicle|
  {
    UpperIdempotent(Strip(vehicle));
    StripIdempotent(vehicle);
    UpperKeepsStripped(Strip(vehicle));
    Upper(Strip(vehicle))
  }

  /**
   * The form's pattern runs on the number as typed, so a number that
   * passes the form is a plate, or a plate followed by the one newline
   * Python's `$` lets through; either way the stripped, upper-cased number
   * is that plate, and the handler's own pattern check never refuses it.
   */
  lemma FormPassImpliesPlate(vehicle: string)
    requires BookFormValid(vehicle)
    ensures Plate.IsValidPlate(Normalised(vehicle))
    ensures vehicle == Normalised(vehicle) || vehicle == Normalised(vehicle) + "\n"
  {
    if Plate.IsValidPlate(vehicle) {
      Plate.ValidPlateIsNormal(vehicle);
    } else {
      var p := vehicle[..|vehicle| - 1];
      Plate.ValidPlateIsNormal(p);
      assert vehicle == p + "\n";
      StripTrailingNewline(p);
    }
  }

  /** The row a booking appends: open, on the spot, with the lot's price, address and name copied. */
  function NewReservation(id: int, spotId: int, userId: int, vehicle: string, now: int, lot: Lot): (r: Reservation)
    ensures IsOpenOn(r, spotId) && r.totalCost.None?
  {
    Reservation(id, Some(spotId), userId, vehicle, now, None, lot.priceCents, None, lot.address, lot.primename)
  }

  /** Setting a spot's status keeps the tables valid, and a new row with a fresh key keeps the reservation keys valid. */
  lemma BookKeepsTables(lots: seq<Lot>, spots: seq<Spot>, rs: seq<Reservation>, users: seq<User>,
                        nextLot: int, nextSpot: int, nextRes: int, i: int, r: Reservation)
    requires TablesValid(lots, spots, rs, users, nextLot, nextSpot, nextRes)
    requires 0 <= i < |spots| && r.id == nextRes && r.spotId == Some(spots[i].id)
    requires spots[i].active
    ensures TablesValid(lots, spots[i := spots[i].(status := Occupied)], rs + [r], users, nextLot, nextSpot, nextRes + 1)
  {
    var after := spots[i := spots[i].(status := Occupied)];
    forall k | 0 <= k < |lots|
      ensures Count(after, ActiveIn(lots[k].id)) == lots[k].maxspots
    {
      CountAgree(after, spots, ActiveIn(lots[k].id));
    }
  }

  /**
   * Booking an Available spot for a vehicle that is not parked keeps the
   * occupancy rules: the spot gets its one open reservation and no
   * vehicle number is open twice.
   */
  lemma BookKeepsConsistent(spots: seq<Spot>, rs: seq<Reservation>, i: int, r: Reservation)
    requires TablesConsistent(spots, rs) && SpotIdsDistinct(spots)
    requires 0 <= i < |spots| && spots[i].status == Available
    requires IsOpenOn(r, spots[i].id) && Upper(r.vehicle) == r.vehicle && !VehicleParked(rs, r.vehicle)
    ensures TablesConsistent(spots[i := spots[i].(status := Occupied)], rs + [r])
  {
    var after, rs' := spots[i := spots[i].(status := Occupied)], rs + [r];
    assert IsOpenOn(rs'[|rs|], spots[i].id);
    forall k | 0 <= k < |after|
      ensures after[k].status == Occupied <==> HasOpenReservation(rs', after[k].id)
    {
      if k != i {
        if HasOpenReservation(rs', after[k].id) {
          var j :| 0 <= j < |rs'| && IsOpenOn(rs'[j], after[k].id);
          assert j < |rs| && IsOpenOn(rs[j], spots[k].id);
        }
        if HasOpenReservation(rs, spots[k].id) {
          var j :| 0 <= j < |rs| && IsOpenOn(rs[j], spots[k].id);
          assert IsOpenOn(rs'[j], after[k].id);
        }
      }
    }
    forall j | 0 <= j < |rs| && IsOpen(rs[j])
      ensures rs[j].spotId != r.spotId && Upper(rs[j].vehicle) != Upper(r.vehicle)
    {
      if rs[j].spotId == r.spotId {
        assert IsOpenOn(rs[j], spots[i].id);
      }
    }
  }

  /**
   * The committing half of a booking: the spot becomes Occupied and one
   * reservation is appended under the next key.
   */
  method ApplyBooking(db: Database, i: int, lot: Lot, v: string, userId: int, now: int)
    requires db.Valid() && 0 <= i < |db.spots| && db.spots[i].active && db.spots[i].status == Available
    requires Upper(v) == v && !VehicleParked(db.reservations, v)
    modifies db
    ensures db.Valid()
    ensures old(db.Consistent()) ==> db.Consistent()
    ensures db.lots == old(db.lots) && db.users == old(db.users)
    ensures db.spots == old(db.spots)[i := old(db.spots)[i].(status := Occupied)]
    ensures db.reservations == old(db.reservations) + [NewReservation(old(db.nextReservationId), old(db.spots)[i].id, userId, v, now, lot)]
    ensures db.nextReservationId == old(db.nextReservationId) + 1
  {
    var r := NewReservation(db.nextReservationId, db.spots[i].id, userId, v, now, lot);
    ghost var spots0, rs0 := db.spots, db.reservations;
    BookKeepsTables(db.lots, db.spots, db.reservations, db.users, db.nextLotId, db.nextSpotId, db.nextReservationId, i, r);
    if db.Consistent() {
      BookKeepsConsistent(db.spots, db.reservations, i, r);
    }
    db.spots := db.spots[i := db.spots[i].(status := Occupied)];
    db.reservations := db.reservations + [r];
    db.nextReservationId := db.nextReservationId + 1;
  }

  /**
   * The spot half of book_spot on POST, for the booking lot `lot` and the
   * normalised number `v`: the spot must be active and Available, the
   * number must match the plate pattern and must not be parked already.
   */
  method BookChosenSpot(db: Database, lot: Lot, spotId: int, v: string, userId: int, now: int)
    returns (outcome: BookOutcome)
    requires db.Valid() && Upper(v) == v && Strip(v) == v
    modifies db
    ensures db.Valid()
    ensures old(db.Consistent()) ==> db.Consistent()
    ensures db.lots == old(db.lots) && db.users == old(db.users)
    ensures outcome != LotNotFound && outcome != FormInvalid
    ensures outcome == SpotNotFound <==> FindSpot(old(db.spots), spotId, true) < 0
    ensures outcome == SpotNotAvailable <==>
              FindSpot(old(db.spots), spotId, true) >= 0 && old(db.spots)[FindSpot(old(db.spots), spotId, true)].status != Available
    ensures outcome == BadPlate ==> !Plate.PatternMatches(v)
    ensures outcome == VehicleAlreadyParked ==> VehicleParked(old(db.reservations), v)
    ensures !outcome.Booked? ==> db.spots == old(db.spots) && db.reservations == old(db.reservations)
    ensures !outcome.Booked? ==> db.nextLotId == old(db.nextLotId) && db.nextSpotId == old(db.nextSpotId) && db.nextReservationId == old(db.nextReservationId)
    ensures outcome.Booked? ==>
              var i := FindSpot(old(db.spots), spotId, true);
              && 0 <= i < |old(db.spots)| && old(db.spots)[i].status == Available
              && Plate.IsValidPlate(v) && !VehicleParked(old(db.reservations), v)
              && outcome.reservationId == old(db.nextReservationId)
              && db.spots == old(db.spots)[i := old(db.spots)[i].(status := Occupied)]
              && db.reservations == old(db.reservations) + [NewReservation(old(db.nextReservationId), spotId, userId, v, now, lot)]
  {
    var i := FindSpot(db.spots, spotId, true);
    if i < 0 {
      return SpotNotFound;
    }
    if db.spots[i].status != Available {
      return SpotNotAvailable;
    }
    Plate.StrippedMatchIsPlate(v);
    if !Plate.PatternMatches(v) {
      return BadPlate;
    }
    if VehicleParked(db.reservations, v) {
      return VehicleAlreadyParked;
    }
    outcome := Booked(db.nextReservationId);
    ApplyBooking(db, i, lot, v, userId, now);
  }

  /**
   * book_spot on POST. The lot comes from the URL (any lot, active or
   * not); the spot from the form's id, looked up among active spots
   * without checking that it belongs to that lot; the reservation copies
   * the URL lot's price, address and name. The checks run in the
   * handler's order, each refusal leaving the tables unchanged; the
   * handler's own pattern check never refuses, the form's having passed;
   * the number is stored stripped and upper-cased.
   */
  method BookSpot(db: Database, lotId: int, spotId: int, vehicle: string, userId: int, now: int)
    returns (outcome: BookOutcome)
    requires db.Valid()
    modifies db
    ensures db.Valid()
    ensures old(db.Consistent()) ==> db.Consistent()
    ensures db.lots == old(db.lots) && db.users == old(db.users)
    ensures outcome == LotNotFound <==> FindLot(old(db.lots), lotId, false) < 0
    ensures outcome == FormInvalid <==> FindLot(old(db.lots), lotId, false) >= 0 && !BookFormValid(vehicle)
    ensures outcome == SpotNotFound <==>
              FindLot(old(db.lots), lotId, false) >= 0 && BookFormValid(vehicle) && FindSpot(old(db.spots), spotId, true) < 0
    ensures outcome == SpotNotAvailable <==>
              && FindLot(old(db.lots), lotId, false) >= 0 && BookFormValid(vehicle)
              && FindSpot(old(db.spots), spotId, true) >= 0 && old(db.spots)[FindSpot(old(db.spots), spotId, true)].status != Available
    ensures outcome != BadPlate
    ensures outcome == VehicleAlreadyParked ==> VehicleParked(old(db.reservations), Normalised(vehicle))
    ensures !outcome.Booked? ==> db.spots == old(db.spots) && db.reservations == old(db.reservations)
    ensures !outcome.Booked? ==> db.nextLotId == old(db.nextLotId) && db.nextSpotId == old(db.nextSpotId) && db.nextReservationId == old(db.nextReservationId)
    ensures outcome.Booked? ==>
              var i := FindSpot(old(db.spots), spotId, true);
              && 0 <= i < |old(db.spots)| && old(db.spots)[i].status == Available
              && !VehicleParked(old(db.reservations), Normalised(vehicle))
              && outcome.reservationId == old(db.nextReservationId)
              && db.spots == old(db.spots)[i := old(db.spots)[i].(status := Occupied)]
              && db.reservations == old(db.reservations) +
                   [NewReservation(old(db.nextReservationId), spotId, userId, Normalised(vehicle), now,
                                   old(db.lots)[FindLot(old(db.lots), lotId, false)])]
  {
    var l := FindLot(db.lots, lotId, false);
    if l < 0 {
      return LotNotFound;
    }
    if !BookFormValid(vehicle) {
      return FormInvalid;
    }
    var v := Normalised(vehicle);
    FormPassImpliesPlate(vehicle);
    outcome := BookChosenSpot(db, db.lots[l], spotId, v, userId, now);
  }

  // ---------------------------------------------------------------------------
  // Release: spot_release on POST

  /** The outcome of a release request. */
  datatype ReleaseOutcome = Released | ReservationNotFound | SpotMissing | AlreadyReleased

  /** A reservation as release stamps it: leaving time `now`, and the fee from parking to `now` at the booked rate. */
  function Closed(r: Reservation, now: int): (c: Reservation)
    ensures !IsOpen(c) && c.leavingTime == Some(now)
    ensures c == r.(leavingTime := c.leavingTime, totalCost := c.totalCost)
    ensures c.totalCost == Some(Cost(r.parkingTime, now, r.rateCents))
    ensures r.parkingTime <= now && 0 <= r.rateCents ==> 0.0 <= c.totalCost.value
  {
    r.(leavingTime := Some(now), totalCost := Some(Cost(r.parkingTime, now, r.rateCents)))
  }

  /** Changing a spot's status and stamping a reservation keep the tables valid. */
  lemma ReleaseKeepsTables(lots: seq<Lot>, spots: seq<Spot>, rs: seq<Reservation>, users: seq<User>,
                           nextLot: int, nextSpot: int, nextRes: int, i: int, j: int, now: int)
    requires TablesValid(lots, spots, rs, users, nextLot, nextSpot, nextRes)
    requires 0 <= i < |rs| && 0 <= j < |spots|
    ensures TablesValid(lots, spots[j := spots[j].(status := Available)], rs[i := Closed(rs[i], now)], users, nextLot, nextSpot, nextRes)
  {
    var after := spots[j := spots[j].(status := Available)];
    forall k | 0 <= k < |lots|
      ensures Count(after, ActiveIn(lots[k].id)) == lots[k].maxspots
    {
      CountAgree(after, spots, ActiveIn(lots[k].id));
    }
  }

  /**
   * Closing a spot's one open reservation and freeing the spot keeps the
   * occupancy rules.
   */
  lemma ReleaseKeepsConsistent(spots: seq<Spot>, rs: seq<Reservation>, i: int, j: int, now: int)
    requires TablesConsistent(spots, rs) && SpotIdsDistinct(spots)
    requires 0 <= i < |rs| && 0 <= j < |spots| && IsOpenOn(rs[i], spots[j].id)
    ensures TablesConsistent(spots[j := spots[j].(status := Available)], rs[i := Closed(rs[i], now)])
  {
    var after, rs' := spots[j := spots[j].(status := Available)], rs[i := Closed(rs[i], now)];
    forall k | 0 <= k < |after|
      ensures after[k].status == Occupied <==> HasOpenReservation(rs', after[k].id)
    {
      if HasOpenReservation(rs', after[k].id) {
        var m :| 0 <= m < |rs'| && IsOpenOn(rs'[m], after[k].id);
        assert m != i && IsOpenOn(rs[m], spots[k].id);
        assert k != j;
      }
      if k != j && HasOpenReservation(rs, spots[k].id) {
        var m :| 0 <= m < |rs| && IsOpenOn(rs[m], spots[k].id);
        assert m != i;
        assert IsOpenOn(rs'[m], after[k].id);
      }
    }
  }

  /** The committing half of a release: the reservation stamped and its spot set Available. */
  method ApplyRelease(db: Database, i: int, j: int, now: int)
    requires db.Valid() && 0 <= i < |db.reservations| && 0 <= j < |db.spots|
    requires db.reservations[i].spotId == Some(db.spots[j].id)
    modifies db`spots, db`reservations
    ensures db.Valid()
    ensures old(db.Consistent()) && IsOpen(old(db.reservations)[i]) ==> db.Consistent()
    ensures db.spots == old(db.spots)[j := old(db.spots)[j].(status := Available)]
    ensures db.reservations == old(db.reservations)[i := Closed(old(db.reservations)[i], now)]
  {
    ReleaseKeepsTables(db.lots, db.spots, db.reservations, db.users, db.nextLotId, db.nextSpotId, db.nextReservationId, i, j, now);
    if db.Consistent() && IsOpen(db.reservations[i]) {
      ReleaseKeepsConsistent(db.spots, db.reservations, i, j, now);
    }
    db.spots := db.spots[j := db.spots[j].(status := Available)];
    db.reservations := db.reservations[i := Closed(db.reservations[i], now)];
  }

  /** The reservation's spot, active or not: its row index, -1 when the reservation has none or the spot is gone. */
  function SpotOf(spots: seq<Spot>, r: Reservation): (j: int)
    ensures -1 <= j < |spots|
    ensures j >= 0 ==> r.spotId == Some(spots[j].id)
    ensures j == -1 <==> r.spotId.None? || forall k :: 0 <= k < |spots| ==> spots[k].id != r.spotId.value
  {
    if r.spotId.None? then -1 else FindSpot(spots, r.spotId.value, false)
  }

  /**
   * spot_release on POST as written: the reservation is stamped and its
   * spot set Available whether or not the reservation is still open. A
   * reservation whose spot is gone makes the handler fail before any
   * change.
   */
  method Release(db: Database, reservationId: int, now: int) returns (outcome: ReleaseOutcome)
    requires db.Valid()
    modifies db`spots, db`reservations
    ensures db.Valid()
    ensures outcome != AlreadyReleased
    ensures outcome == ReservationNotFound <==> FindReservation(old(db.reservations), reservationId) < 0
    ensures outcome == SpotMissing <==>
              var i := FindReservation(old(db.reservations), reservationId);
              i >= 0 && SpotOf(old(db.spots), old(db.reservations)[i]) < 0
    ensures outcome != Released ==> db.spots == old(db.spots) && db.reservations == old(db.reservations)
    ensures outcome == Released ==>
              var i := FindReservation(old(db.reservations), reservationId);
              var j := SpotOf(old(db.spots), old(db.reservations)[i]);
              && 0 <= i < |old(db.reservations)| && 0 <= j < |old(db.spots)|
              && db.spots == old(db.spots)[j := old(db.spots)[j].(status := Available)]
              && db.reservations == old(db.reservations)[i := Closed(old(db.reservations)[i], now)]
  {
    var i := FindReservation(db.reservations, reservationId);
    if i < 0 {
      return ReservationNotFound;
    }
    var j := SpotOf(db.spots, db.reservations[i]);
    if j < 0 {
      return SpotMissing;
    }
    ApplyRelease(db, i, j, now);
    outcome := Released;
  }

  /**
   * The same state as in `Admin.FirstReservationCostIsStale`: releasing
   * the already closed first reservation again frees spot 1 although the
   * second car is still parked there, and re-bills the first stay to the
   * new time.
   */
  lemma DoubleReleaseFreesOccupiedSpot()
    ensures var spots := [Spot(1, 1, 1, Occupied, true)];
            var rs := [Reservation(1, Some(1), 7, "MH12AB1234", 0, Some(3600), 2000, Some(20.0), "1 Main Road", "City Mall"),
                       Reservation(2, Some(1), 8, "KA01CD5678", 7200, None, 2000, None, "1 Main Road", "City Mall")];
            var spots', rs' := spots[0 := spots[0].(status := Available)], rs[0 := Closed(rs[0], 10800)];
            && TablesConsistent(spots, rs) && !IsOpen(rs[0])
            && SpotOf(spots, rs[0]) == 0
            && !TablesConsistent(spots', rs')
            && rs'[0].totalCost == Some(60.0)
  {
    var spots := [Spot(1, 1, 1, Occupied, true)];
    var rs := [Reservation(1, Some(1), 7, "MH12AB1234", 0, Some(3600), 2000, Some(20.0), "1 Main Road", "City Mall"),
               Reservation(2, Some(1), 8, "KA01CD5678", 7200, None, 2000, None, "1 Main Road", "City Mall")];
    var spots', rs' := spots[0 := spots[0].(status := Available)], rs[0 := Closed(rs[0], 10800)];
    assert IsOpenOn(rs[1], 1) && IsOpenOn(rs'[1], 1);
    assert spots'[0].status == Available && HasOpenReservation(rs', spots'[0].id);
  }

  /**
   * spot_release as evidently intended: a reservation already closed is
   * refused, so a release always keeps the occupancy rules.
   */
  method ReleaseOpen(db: Database, reservationId: int, now: int) returns (outcome: ReleaseOutcome)
    requires db.Valid()
    modifies db`spots, db`reservations
    ensures db.Valid()
    ensures old(db.Consistent()) ==> db.Consistent()
    ensures outcome == ReservationNotFound <==> FindReservation(old(db.reservations), reservationId) < 0
    ensures outcome == AlreadyReleased <==>
              var i := FindReservation(old(db.reservations), reservationId);
              i >= 0 && !IsOpen(old(db.reservations)[i])
    ensures outcome == SpotMissing <==>
              var i := FindReservation(old(db.reservations), reservationId);
              i >= 0 && IsOpen(old(db.reservations)[i]) && SpotOf(old(db.spots), old(db.reservations)[i]) < 0
    ensures outcome != Released ==> db.spots == old(db.spots) && db.reservations == old(db.reservations)
    ensures outcome == Released ==>
              var i := FindReservation(old(db.reservations), reservationId);
              var j := SpotOf(old(db.spots), old(db.reservations)[i]);
              && 0 <= i < |old(db.reservations)| && 0 <= j < |old(db.spots)|
              && db.spots == old(db.spots)[j := old(db.spots)[j].(status := Available)]
              && db.reservations == old(db.reservations)[i := Closed(old(db.reservations)[i], now)]
  {
    var i := FindReservation(db.reservations, reservationId);
    if i < 0 {
      return ReservationNotFound;
    }
    if !IsOpen(db.reservations[i]) {
      return AlreadyReleased;
    }
    var j := SpotOf(db.spots, db.reservations[i]);
    if j < 0 {
      return SpotMissing;
    }
    ApplyRelease(db, i, j, now);
    outcome := Released;
  }

  /**
   * The running cost the admin's spot view shows (as corrected) at some
   * instant is the fee a release at that same instant stores.
   */
  lemma EstimateIsReleaseCost(spots: seq<Spot>, rs: seq<Reservation>, spotId: int, i: int, now: int)
    requires OneOpenPerSpot(rs) && 0 <= i < |rs| && IsOpenOn(rs[i], spotId)
    requires FindSpot(spots, spotId, true) >= 0
    ensures Admin.RunningCost(spots, rs, spotId, now) == Closed(rs[i], now).totalCost
  {
    assert HasOpenReservation(rs, spotId);
  }

  // ---------------------------------------------------------------------------
  // Availability: user_dashboard and parking_search

  /** A lot's availability as both handlers compute it: its spots with status 'A', deactivated spots included. */
  function Availability(spots: seq<Spot>, lotId: int): (n: nat)
    ensures n <= Count(spots, InLot(lotId))
  {
    CountAvailableBelowLot(spots, lotId);
    Count(spots, AvailableIn(lotId))
  }

  lemma {:induction false} CountAvailableBelowLot(spots: seq<Spot>, lotId: int)
    ensures Count(spots, AvailableIn(lotId)) <= Count(spots, InLot(lotId))
    decreases |spots|
  {
    if spots != [] {
      CountAvailableBelowLot(spots[..|spots| - 1], lotId);
    }
  }

  /**
   * With the tables valid, the availability shown is the lot's free active
   * spots, maxspots minus the active Occupied ones, plus every deactivated
   * spot of the lot.
   */
  lemma AvailabilityCountsDeactivated(lots: seq<Lot>, spots: seq<Spot>, k: int)
    requires CapacityMatches(lots, spots) && InactiveAvailable(spots) && 0 <= k < |lots|
    ensures Availability(spots, lots[k].id) ==
              lots[k].maxspots - Count(spots, ActiveOccupiedIn(lots[k].id)) + Count(spots, InactiveIn(lots[k].id))
  {
    CountAvailableSplit(spots, lots[k].id);
    CountActiveSplit(spots, lots[k].id);
  }

  /** A lot with its availability, as parking_search returns it. */
  datatype LotAvailability = LotAvailability(lot: Lot, available: nat)

  /**
   * parking_search's filter: an all-digit query matches a pincode
   * containing it, any other query an address containing it, both
   * ignoring case (ILIKE '%q%').
   */
  predicate ParkingHit(lot: Lot, q: string) {
    if IsDigits(q) then Contains(Lower(lot.pincode), Lower(q)) else Contains(Lower(lot.address), Lower(q))
  }

  /** An empty query is not all digits and matches every address: every lot is listed. */
  lemma EmptyQueryListsAll(lot: Lot)
    ensures ParkingHit(lot, [])
  {
    ContainsEmpty(Lower(lot.address));
    assert Lower([]) == [];
  }

  /** The listing loop of parking_search, for the stripped query `q`. */
  method ListAvailability(db: Database, q: string) returns (response: seq<LotAvailability>)
    ensures forall j :: 0 <= j < |response| ==>
              && response[j].lot in db.lots && ParkingHit(response[j].lot, q)
              && response[j].available == Availability(db.spots, response[j].lot.id)
    ensures forall k :: 0 <= k < |db.lots| && ParkingHit(db.lots[k], q) ==>
              LotAvailability(db.lots[k], Availability(db.spots, db.lots[k].id)) in response
    ensures db.Valid() ==> forall i, j :: 0 <= i < j < |response| ==>
              FindLot(db.lots, response[i].lot.id, false) < FindLot(db.lots, response[j].lot.id, false)
  {
    response := [];
    ghost var ids: seq<int> := [];
    for k := 0 to |db.lots|
      invariant forall j :: 0 <= j < |response| ==>
                  && response[j].lot in db.lots[..k] && ParkingHit(response[j].lot, q)
                  && response[j].available == Availability(db.spots, response[j].lot.id)
      invariant forall k' :: 0 <= k' < k && ParkingHit(db.lots[k'], q) ==>
                  LotAvailability(db.lots[k'], Availability(db.spots, db.lots[k'].id)) in response
      invariant |ids| == |response| && forall j :: 0 <= j < |response| ==> response[j].lot.id == ids[j]
      invariant db.Valid() ==> ListedInOrder(db.lots, ids, k)
    {
      var lot := db.lots[k];
      if db.Valid() {
        ListedInOrderStep(db.lots, ids, k, ParkingHit(lot, q));
      }
      if ParkingHit(lot, q) {
        ids := ids + [lot.id];
        response := response + [LotAvailability(lot, Availability(db.spots, lot.id))];
      }
    }
    assert db.lots[..|db.lots|] == db.lots;
  }

  /**
   * parking_search: every lot, active or not, matching the stripped query,
   * with its availability.
   */
  method ParkingSearch(db: Database, query: string) returns (response: seq<LotAvailability>)
    ensures forall j :: 0 <= j < |response| ==>
              && response[j].lot in db.lots && ParkingHit(response[j].lot, Strip(query))
              && response[j].available == Availability(db.spots, response[j].lot.id)
    ensures db.Valid() ==> forall i, j :: 0 <= i < j < |response| ==>
              FindLot(db.lots, response[i].lot.id, false) < FindLot(db.lots, response[j].lot.id, false)
    ensures forall k :: 0 <= k < |db.lots| && ParkingHit(db.lots[k], Strip(query)) ==>
              LotAvailability(db.lots[k], Availability(db.spots, db.lots[k].id)) in response
    ensures IsBlank(query) ==> forall k :: 0 <= k < |db.lots| ==>
              LotAvailability(db.lots[k], Availability(db.spots, db.lots[k].id)) in response
  {
    var q := Strip(query);
    response := ListAvailability(db, q);
    if q == [] {
      forall k | 0 <= k < |db.lots|
        ensures ParkingHit(db.lots[k], q)
      {
        EmptyQueryListsAll(db.lots[k]);
      }
    }
  }
}
