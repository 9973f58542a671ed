/**
 * The queries the handlers run against the spot and reservation tables:
 * filtered counts (`.filter_by(...).count()`, `sum(1 for spot in lot.spots
 * if ...)`), primary-key lookups (`.get`, `.first()`), and the
 * highest-numbered match (`.order_by(spot_no.desc()).first()`).
 */
module Tables {
  import opened Wrappers
  import opened Text
  import opened Models

  /** The spot filters the handlers use, each restricted to one lot. */
  datatype SpotFilter =
    | InLot(lot: int)              // lot.spots, deactivated ones included
    | ActiveIn(lot: int)
    | ActiveAvailableIn(lot: int)
    | ActiveOccupiedIn(lot: int)
    | InactiveIn(lot: int)
    | AvailableIn(lot: int)        // status 'A', deactivated ones included
    | OccupiedIn(lot: int)         // status 'O', deactivated ones included

  predicate Matches(f: SpotFilter, s: Spot) {
    && s.lotId == f.lot
    && match f
       case InLot(_) => true
       case ActiveIn(_) => s.active
       case ActiveAvailableIn(_) => s.active && s.status == Available
       case ActiveOccupiedIn(_) => s.active && s.status == Occupied
       case InactiveIn(_) => !s.active
       case AvailableIn(_) => s.status == Available
       case OccupiedIn(_) => s.status == Occupied
  }

  /** The number of spots the filter selects. */
  function Count(spots: seq<Spot>, f: SpotFilter): (n: nat)
    ensures n <= |spots|
    ensures n == 0 <==> forall k :: 0 <= k < |spots| ==> !Matches(f, spots[k])
  {
    if spots == [] then 0
    else Count(spots[..|spots| - 1], f) + (if Matches(f, spots[|spots| - 1]) then 1 else 0)
  }

  lemma CountSingleton(x: Spot, f: SpotFilter)
    ensures Count([x], f) == if Matches(f, x) then 1 else 0
  {
    assert [x][..0] == [];
  }

  /** Counting distributes over concatenation of tables. */
  lemma {:induction false} CountAppend(s: seq<Spot>, t: seq<Spot>, f: SpotFilter)
    ensures Count(s + t, f) == Count(s, f) + Count(t, f)
    decreases |t|
  {
    if t == [] {
      assert s + t == s;
    } else {
      var t' := t[..|t| - 1];
      CountAppend(s, t', f);
      assert (s + t)[..|s + t| - 1] == s + t';
    }
  }

  /** Replacing one row changes the count by what the old and new rows contribute. */
  lemma CountUpdate(s: seq<Spot>, i: int, v: Spot, f: SpotFilter)
    requires 0 <= i < |s|
    ensures Count(s[i := v], f) ==
            Count(s, f) - (if Matches(f, s[i]) then 1 else 0) + (if Matches(f, v) then 1 else 0)
  {
    assert s == (s[..i] + [s[i]]) + s[i + 1..];
    assert s[i := v] == (s[..i] + [v]) + s[i + 1..];
    CountAppend(s[..i] + [s[i]], s[i + 1..], f);
    CountAppend(s[..i], [s[i]], f);
    CountAppend(s[..i] + [v], s[i + 1..], f);
    CountAppend(s[..i], [v], f);
    CountSingleton(s[i], f);
    CountSingleton(v, f);
  }

  /** Deleting one row lowers the count by what that row contributed. */
  lemma CountRemove(s: seq<Spot>, i: int, f: SpotFilter)
    requires 0 <= i < |s|
    ensures Count(s[..i] + s[i + 1..], f) == Count(s, f) - (if Matches(f, s[i]) then 1 else 0)
  {
    assert s == (s[..i] + [s[i]]) + s[i + 1..];
    CountAppend(s[..i] + [s[i]], s[i + 1..], f);
    CountAppend(s[..i], [s[i]], f);
    CountAppend(s[..i], s[i + 1..], f);
    CountSingleton(s[i], f);
  }

  /** Two tables the filter cannot tell apart row by row have the same count. */
  lemma {:induction false} CountAgree(s: seq<Spot>, t: seq<Spot>, f: SpotFilter)
    requires |s| == |t|
    requires forall k :: 0 <= k < |s| ==> (Matches(f, s[k]) <==> Matches(f, t[k]))
    ensures Count(s, f) == Count(t, f)
    decreases |s|
  {
    if s != [] {
      CountAgree(s[..|s| - 1], t[..|t| - 1], f);
    }
  }

  /** Every active spot is either Available or Occupied. */
  lemma {:induction false} CountActiveSplit(s: seq<Spot>, lot: int)
    ensures Count(s, ActiveIn(lot)) == Count(s, ActiveAvailableIn(lot)) + Count(s, ActiveOccupiedIn(lot))
    decreases |s|
  {
    if s != [] {
      CountActiveSplit(s[..|s| - 1], lot);
    }
  }

  /** Every spot of a lot is active or deactivated. */
  lemma {:induction false} CountLotSplit(s: seq<Spot>, lot: int)
    ensures Count(s, InLot(lot)) == Count(s, ActiveIn(lot)) + Count(s, InactiveIn(lot))
    decreases |s|
  {
    if s != [] {
      CountLotSplit(s[..|s| - 1], lot);
    }
  }

  /** Status 'A' over all of a lot's spots splits into the active ones and the deactivated ones, when every deactivated spot is Available. */
  lemma {:induction false} CountAvailableSplit(s: seq<Spot>, lot: int)
    requires forall k :: 0 <= k < |s| && !s[k].active ==> s[k].status == Available
    ensures Count(s, AvailableIn(lot)) == Count(s, ActiveAvailableIn(lot)) + Count(s, InactiveIn(lot))
    ensures Count(s, OccupiedIn(lot)) == Count(s, ActiveOccupiedIn(lot))
    decreases |s|
  {
    if s != [] {
      CountAvailableSplit(s[..|s| - 1], lot);
    }
  }

  /**
   * The selected spot with the highest spot number (the first such on a
   * tie), or -1 when the filter selects nothing.
   */
  function HighestMatch(s: seq<Spot>, f: SpotFilter): (i: int)
    ensures -1 <= i < |s|
    ensures i == -1 <==> Count(s, f) == 0
    ensures i >= 0 ==> Matches(f, s[i])
    ensures i >= 0 ==> forall k :: 0 <= k < |s| && Matches(f, s[k]) ==> s[k].spotNo <= s[i].spotNo
  {
    if s == [] then -1
    else
      var j := HighestMatch(s[..|s| - 1], f);
      var last := |s| - 1;
      if !Matches(f, s[last]) then j
      else if j == -1 || s[j].spotNo < s[last].spotNo then last
      else j
  }

  /** The index of the first row the filter selects, -1 when it selects none: `query.filter(...).first()`. */
  function FirstWhere<T>(rows: seq<T>, hit: T -> bool): (i: int)
    ensures -1 <= i < |rows|
    ensures i >= 0 ==> hit(rows[i]) && forall k :: 0 <= k < i ==> !hit(rows[k])
    ensures i == -1 <==> forall k :: 0 <= k < |rows| ==> !hit(rows[k])
  {
    if rows == [] then -1
    else if hit(rows[0]) then 0
    else
      var j := FirstWhere(rows[1..], hit);
      assert forall k :: 1 <= k < |rows| ==> rows[k] == rows[1..][k - 1];
      if j == -1 then -1 else j + 1
  }

  /** `ParkingSpot.query.get(id)` (any spot) or `.filter_by(id=id, active=True).first()`: the row index, -1 when absent. */
  function FindSpot(spots: seq<Spot>, id: int, activeOnly: bool): (i: int)
    ensures -1 <= i < |spots|
    ensures i >= 0 ==> spots[i].id == id && (activeOnly ==> spots[i].active)
    ensures i == -1 <==> forall k :: 0 <= k < |spots| ==> !(spots[k].id == id && (activeOnly ==> spots[k].active))
  {
    FirstWhere(spots, (s: Spot) => s.id == id && (activeOnly ==> s.active))
  }

  /** `ParkingLots.query.get(id)` or `.filter_by(id=id, active=True).first()`. */
  function FindLot(lots: seq<Lot>, id: int, activeOnly: bool): (i: int)
    ensures -1 <= i < |lots|
    ensures i >= 0 ==> lots[i].id == id && (activeOnly ==> lots[i].active)
    ensures i == -1 <==> forall k :: 0 <= k < |lots| ==> !(lots[k].id == id && (activeOnly ==> lots[k].active))
  {
    FirstWhere(lots, (l: Lot) => l.id == id && (activeOnly ==> l.active))
  }

  /** `ReservedSpots.query.get(id)`. */
  function FindReservation(rs: seq<Reservation>, id: int): (i: int)
    ensures -1 <= i < |rs|
    ensures i >= 0 ==> rs[i].id == id
    ensures i == -1 <==> forall k :: 0 <= k < |rs| ==> rs[k].id != id
  {
    FirstWhere(rs, (r: Reservation) => r.id == id)
  }

  /** `ReservedSpots.query.filter(spot_id == id).first()`: the earliest row for the spot, open or closed. */
  function FirstReservationOn(rs: seq<Reservation>, spotId: int): (i: int)
    ensures -1 <= i < |rs|
    ensures i >= 0 ==> rs[i].spotId == Some(spotId) && forall k :: 0 <= k < i ==> rs[k].spotId != Some(spotId)
    ensures i == -1 <==> forall k :: 0 <= k < |rs| ==> rs[k].spotId != Some(spotId)
  {
    FirstWhere(rs, (r: Reservation) => r.spotId == Some(spotId))
  }

  predicate IsOpenOn(r: Reservation, spotId: int) {
    r.spotId == Some(spotId) && IsOpen(r)
  }

  /** Whether some reservation of the spot has no leaving time. */
  predicate HasOpenReservation(rs: seq<Reservation>, spotId: int) {
    exists j :: 0 <= j < |rs| && IsOpenOn(rs[j], spotId)
  }

  /** Whether an open reservation's number, upper-cased, equals v. */
  predicate VehicleParked(rs: seq<Reservation>, v: string) {
    exists j :: 0 <= j < |rs| && IsOpen(rs[j]) && Upper(rs[j].vehicle) == v
  }
}
