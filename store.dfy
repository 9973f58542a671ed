/**
 * The database the handlers share: the four tables and the next primary
 * key of each table a handler inserts into. Every handler is one atomic
 * step on this object; an error path leaves it unchanged (the session is
 * rolled back or never committed).
 */
module Store {
  import opened Wrappers
  import opened Text
  import opened Models
  import opened Tables

  predicate LotIdsDistinct(lots: seq<Lot>) {
    forall i, j :: 0 <= i < j < |lots| ==> lots[i].id != lots[j].id
  }

  /** With distinct ids, looking a lot up by its id finds its own row: listings ordered by that index are in table order. */
  lemma FindLotAt(lots: seq<Lot>, k: int)
    requires LotIdsDistinct(lots) && 0 <= k < |lots|
    ensures FindLot(lots, lots[k].id, false) == k
  {
    var found := FindLot(lots, lots[k].id, false);
    if found != k {
      assert false;
    }
  }

  /** The ids name lots before row `k`, each once, in the lot table's order. */
  predicate ListedInOrder(lots: seq<Lot>, ids: seq<int>, k: int) {
    && (forall j :: 0 <= j < |ids| ==> FindLot(lots, ids[j], false) < k)
    && (forall i, j :: 0 <= i < j < |ids| ==> FindLot(lots, ids[i], false) < FindLot(lots, ids[j], false))
  }

  /** A listing loop at row `k` keeps its output in table order, whether or not it lists that row. */
  lemma ListedInOrderStep(lots: seq<Lot>, ids: seq<int>, k: int, listed: bool)
    requires LotIdsDistinct(lots) && 0 <= k < |lots| && ListedInOrder(lots, ids, k)
    ensures ListedInOrder(lots, if listed then ids + [lots[k].id] else ids, k + 1)
  {
    FindLotAt(lots, k);
  }

  predicate SpotIdsDistinct(spots: seq<Spot>) {
    forall i, j :: 0 <= i < j < |spots| ==> spots[i].id != spots[j].id
  }

  /** Within one lot no two spots share a number (deactivated spots included). */
  predicate SpotNumbersDistinct(spots: seq<Spot>) {
    forall i, j :: 0 <= i < j < |spots| && spots[i].lotId == spots[j].lotId ==> spots[i].spotNo != spots[j].spotNo
  }

  /** Only Available spots are ever deactivated, so a deactivated spot is Available. */
  predicate InactiveAvailable(spots: seq<Spot>) {
    forall k :: 0 <= k < |spots| && !spots[k].active ==> spots[k].status == Available
  }

  /** Every lot has exactly `maxspots` active spots. */
  predicate CapacityMatches(lots: seq<Lot>, spots: seq<Spot>) {
    forall k :: 0 <= k < |lots| ==> Count(spots, ActiveIn(lots[k].id)) == lots[k].maxspots
  }

  predicate ReservationIdsDistinct(rs: seq<Reservation>) {
    forall i, j :: 0 <= i < j < |rs| ==> rs[i].id != rs[j].id
  }

  predicate EmailsDistinct(users: seq<User>) {
    forall i, j :: 0 <= i < j < |users| ==> users[i].email != users[j].email
  }

  predicate UserIdsDistinct(users: seq<User>) {
    forall i, j :: 0 <= i < j < |users| ==> users[i].id != users[j].id
  }

  /** Every key in use lies below the table's next key, so the next key is fresh. */
  predicate KeysBelow(lots: seq<Lot>, spots: seq<Spot>, rs: seq<Reservation>,
                      nextLotId: int, nextSpotId: int, nextReservationId: int)
  {
    && (forall k :: 0 <= k < |lots| ==> lots[k].id < nextLotId)
    && (forall k :: 0 <= k < |spots| ==> spots[k].id < nextSpotId && spots[k].lotId < nextLotId)
    && (forall k :: 0 <= k < |rs| ==> rs[k].id < nextReservationId)
    && (forall k :: 0 <= k < |rs| && rs[k].spotId.Some? ==> rs[k].spotId.value < nextSpotId)
  }

  /** A spot is Occupied exactly when it has an open reservation. */
  predicate Occupancy(spots: seq<Spot>, rs: seq<Reservation>) {
    forall k :: 0 <= k < |spots| ==> (spots[k].status == Occupied <==> HasOpenReservation(rs, spots[k].id))
  }

  /** No spot has two open reservations. */
  predicate OneOpenPerSpot(rs: seq<Reservation>) {
    forall i, j :: 0 <= i < j < |rs| && IsOpen(rs[i]) && IsOpen(rs[j]) && rs[i].spotId.Some? ==> rs[i].spotId != rs[j].spotId
  }

  /** No vehicle number, compared case-insensitively, has two open reservations. */
  predicate OpenVehiclesDistinct(rs: seq<Reservation>) {
    forall i, j :: 0 <= i < j < |rs| && IsOpen(rs[i]) && IsOpen(rs[j]) ==> Upper(rs[i].vehicle) != Upper(rs[j].vehicle)
  }

  /** What the schema and every handler maintain. */
  predicate TablesValid(lots: seq<Lot>, spots: seq<Spot>, rs: seq<Reservation>, users: seq<User>,
                       nextLotId: int, nextSpotId: int, nextReservationId: int)
  {
    && LotIdsDistinct(lots)
    && SpotIdsDistinct(spots)
    && SpotNumbersDistinct(spots)
    && InactiveAvailable(spots)
    && CapacityMatches(lots, spots)
    && ReservationIdsDistinct(rs)
    && EmailsDistinct(users)
    && UserIdsDistinct(users)
    && KeysBelow(lots, spots, rs, nextLotId, nextSpotId, nextReservationId)
  }

  /**
   * The occupancy rules: status agrees with the open reservations, at most
   * one open reservation per spot and per vehicle number.
   */
  predicate TablesConsistent(spots: seq<Spot>, rs: seq<Reservation>) {
    Occupancy(spots, rs) && OneOpenPerSpot(rs) && OpenVehiclesDistinct(rs)
  }

  class Database {
    var lots: seq<Lot>
    var spots: seq<Spot>
    var reservations: seq<Reservation>
    var users: seq<User>
    var nextLotId: int
    var nextSpotId: int
    var nextReservationId: int

    ghost predicate Valid()
      reads this
    {
      TablesValid(lots, spots, reservations, users, nextLotId, nextSpotId, nextReservationId)
    }

    ghost predicate Consistent()
      reads this
    {
      TablesConsistent(spots, reservations)
    }

    /** An empty database holding the given registered users. */
    constructor (registered: seq<User>)
      requires EmailsDistinct(registered) && UserIdsDistinct(registered)
      ensures Valid() && Consistent()
      ensures lots == [] && spots == [] && reservations == [] && users == registered
    {
      lots, spots, reservations, users := [], [], [], registered;
      nextLotId, nextSpotId, nextReservationId := 1, 1, 1;
    }
  }
}
