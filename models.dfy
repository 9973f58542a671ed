/**
 * The records of models/models.py. Each table row is a value; the store
 * (module Store) holds the tables. The `active` soft-delete flag that the
 * admin handlers read and write on lots and spots is part of the records
 * although the table declarations omit it.
 */
module Models {
  import opened Wrappers
  import opened Billing

  /** parking_spot.status, constrained by CHECK (status IN ('A', 'O')). */
  datatype Status = Available | Occupied

  function StatusCode(s: Status): (c: char)
    ensures c == 'A' || c == 'O'
  {
    match s
    case Available => 'A'
    case Occupied => 'O'
  }

  /** Reading the one-character column back; anything but 'A' or 'O' violates the check constraint. */
  function ParseStatus(c: char): (r: Option<Status>)
    ensures r.Some? <==> c == 'A' || c == 'O'
    ensures r.Some? ==> StatusCode(r.value) == c
  {
    if c == 'A' then Some(Available)
    else if c == 'O' then Some(Occupied)
    else None
  }

  /** Writing a status and reading it back gives the same status. */
  lemma StatusRoundTrip(s: Status)
    ensures ParseStatus(StatusCode(s)) == Some(s)
  {
  }

  /** parking_lots: price is Numeric(10, 2), held in paise. */
  datatype Lot = Lot(
    id: int,
    primename: string,
    priceCents: int,
    address: string,
    pincode: string,
    maxspots: int,
    active: bool)

  /** parking_spot: exactly one lot, a required number, a status, a soft-delete flag. */
  datatype Spot = Spot(
    id: int,
    lotId: int,
    spotNo: int,
    status: Status,
    active: bool)

  /**
   * reserved_spots: spot_id is nullable (it is cleared when its spot is
   * deleted); leaving_time and total_cost stay empty until release; the
   * lot's rate, address and name are copied at booking.
   */
  datatype Reservation = Reservation(
    id: int,
    spotId: Option<int>,
    userId: int,
    vehicle: string,
    parkingTime: int,
    leavingTime: Option<int>,
    rateCents: int,
    totalCost: Option<real>,
    location: string,
    primename: string)

  /** user: the profile fields edit_profile updates; email is unique. */
  datatype User = User(
    id: int,
    email: string,
    name: string,
    address: string,
    pincode: string)

  /** The declared column widths and numeric precisions of a reservation row. */
  predicate ReservationFitsColumns(r: Reservation) {
    && |r.vehicle| <= 15
    && |r.location| <= 225
    && |r.primename| <= 225
    && FitsNumeric(r.rateCents)
  }

  /** An open reservation is one whose leaving time is still empty. */
  predicate IsOpen(r: Reservation) {
    r.leavingTime.None?
  }
}
