/**
 * The two handlers of app.py with domain logic: the e-mail uniqueness
 * guard and row update of edit_profile, and the counts behind the charts
 * of parking_summary (per-spot revenue and per-lot occupancy for the
 * admin, per-lot-name usage for a user).
 */
module App {
  import opened Wrappers
  import opened Text
  import opened Models
  import opened Forms
  import opened Tables
  import opened Store
  import Booking

  // ---------------------------------------------------------------------------
  // edit_profile

  datatype ProfileOutcome = ProfileFormInvalid | EmailInUse | ProfileUpdated

  /** `User.query.filter_by(email=e).first()`: the first row holding e, or -1. */
  function FindEmail(users: seq<User>, e: string): (i: int)
    ensures -1 <= i < |users|
    ensures i >= 0 ==> users[i].email == e
    ensures i == -1 <==> forall k :: 0 <= k < |users| ==> users[k].email != e
  {
    if users == [] then -1
    else if users[0].email == e then 0
    else
      var j := FindEmail(users[1..], e);
      if j == -1 then -1 else j + 1
  }

  /** The handler's guard: the address differs from the user's own and some row already holds it. */
  predicate EmailRejected(users: seq<User>, u: int, e: string)
    requires 0 <= u < |users|
  {
    e != users[u].email && FindEmail(users, e) >= 0
  }

  /** With unique addresses the guard refuses exactly the addresses another user holds. */
  lemma EmailRejectedIffHeldByOther(users: seq<User>, u: int, e: string)
    requires 0 <= u < |users| && EmailsDistinct(users)
    ensures EmailRejected(users, u, e) <==> exists k :: 0 <= k < |users| && k != u && users[k].email == e
  {
    if k :| 0 <= k < |users| && k != u && users[k].email == e {
      assert users[u].email != e by {
        if u < k {
          assert users[u].email != users[k].email;
        } else {
          assert users[k].email != users[u].email;
        }
      }
    }
  }

  /** The user's row after the update: every profile field stripped of surrounding whitespace. */
  function EditedUser(user: User, f: ProfileForm): (v: User)
    ensures v.id == user.id
  {
    user.(email := Strip(f.email), pincode := Strip(f.pincode), name := Strip(f.name), address := Strip(f.address))
  }

  /** Writing an address the guard lets through keeps addresses and ids unique. */
  lemma EditKeepsUsersDistinct(users: seq<User>, u: int, v: User)
    requires 0 <= u < |users| && EmailsDistinct(users) && UserIdsDistinct(users)
    requires !EmailRejected(users, u, v.email) && v.id == users[u].id
    ensures EmailsDistinct(users[u := v]) && UserIdsDistinct(users[u := v])
  {
    var users' := users[u := v];
    forall i, j | 0 <= i < j < |users'|
      ensures users'[i].email != users'[j].email
    {
      if i == u {
        assert FindEmail(users, v.email) == -1 || v.email == users[u].email;
      } else if j == u {
        assert FindEmail(users, v.email) == -1 || v.email == users[u].email;
      }
    }
  }

  /** The update itself: the row is replaced and the tables stay valid. */
  lemma EditKeepsTables(lots: seq<Lot>, spots: seq<Spot>, rs: seq<Reservation>, users: seq<User>,
                        nextLot: int, nextSpot: int, nextRes: int, u: int, v: User)
    requires TablesValid(lots, spots, rs, users, nextLot, nextSpot, nextRes)
    requires 0 <= u < |users| && !EmailRejected(users, u, v.email) && v.id == users[u].id
    ensures TablesValid(lots, spots, rs, users[u := v], nextLot, nextSpot, nextRes)
  {
    EditKeepsUsersDistinct(users, u, v);
  }

  method ApplyEdit(db: Database, u: int, v: User)
    requires db.Valid() && 0 <= u < |db.users|
    requires !EmailRejected(db.users, u, v.email) && v.id == db.users[u].id
    modifies db`users
    ensures db.Valid() && db.users == old(db.users)[u := v]
  {
    EditKeepsTables(db.lots, db.spots, db.reservations, db.users, db.nextLotId, db.nextSpotId, db.nextReservationId, u, v);
    db.users := db.users[u := v];
  }

  /**
   * edit_profile on POST by the user in row u: the form's validators, then
   * the uniqueness guard on the stripped address, then the row update.
   */
  method EditProfile(db: Database, u: int, f: ProfileForm) returns (outcome: ProfileOutcome)
    requires db.Valid() && 0 <= u < |db.users|
    modifies db`users
    ensures db.Valid()
    ensures outcome == ProfileFormInvalid <==> !ProfileFormValid(f)
    ensures outcome == EmailInUse <==>
              && ProfileFormValid(f)
              && exists k :: 0 <= k < |old(db.users)| && k != u && old(db.users)[k].email == Strip(f.email)
    ensures outcome != ProfileUpdated ==> db.users == old(db.users)
    ensures outcome == ProfileUpdated ==> db.users == old(db.users)[u := EditedUser(old(db.users)[u], f)]
  {
    if !ProfileFormValid(f) {
      return ProfileFormInvalid;
    }
    var v := EditedUser(db.users[u], f);
    assert EmailsDistinct(db.users);
    EmailRejectedIffHeldByOther(db.users, u, v.email);
    if EmailRejected(db.users, u, v.email) {
      return EmailInUse;
    }
    ApplyEdit(db, u, v);
    outcome := ProfileUpdated;
  }

  // ---------------------------------------------------------------------------
  // parking_summary, admin branch: revenue per spot

  /** The sum of the booking rates of the spot's reservations, open or closed. */
  function RevenueOf(rs: seq<Reservation>, spotId: int): int
  {
    if rs == [] then 0
    else RevenueOf(rs[..|rs| - 1], spotId) + (if rs[|rs| - 1].spotId == Some(spotId) then rs[|rs| - 1].rateCents else 0)
  }

  predicate HasReservation(rs: seq<Reservation>, spotId: int) {
    exists j :: 0 <= j < |rs| && rs[j].spotId == Some(spotId)
  }

  /**
   * The inner join of spots with their reservations grouped by spot id:
   * one row per spot that has a reservation, with its revenue.
   */
  function SpotRevenue(spots: seq<Spot>, rs: seq<Reservation>): (rows: seq<(int, int)>)
    ensures forall i :: 0 <= i < |rows| ==>
              && (exists k :: 0 <= k < |spots| && spots[k].id == rows[i].0)
              && HasReservation(rs, rows[i].0) && rows[i].1 == RevenueOf(rs, rows[i].0)
    ensures forall k :: 0 <= k < |spots| && HasReservation(rs, spots[k].id) ==>
              (spots[k].id, RevenueOf(rs, spots[k].id)) in rows
    ensures SpotIdsDistinct(spots) ==> forall i, j :: 0 <= i < j < |rows| ==> rows[i].0 != rows[j].0
  {
    if spots == [] then []
    else
      var s := spots[|spots| - 1];
      var init := spots[..|spots| - 1];
      var rows := SpotRevenue(init, rs);
      assert forall k :: 0 <= k < |init| ==> init[k] == spots[k];
      if HasReservation(rs, s.id) then rows + [(s.id, RevenueOf(rs, s.id))] else rows
  }

  /** A new row adds its rate to its own spot's revenue and nothing to any other spot's. */
  lemma RevenueAppend(rs: seq<Reservation>, r: Reservation, spotId: int)
    ensures RevenueOf(rs + [r], spotId) == RevenueOf(rs, spotId) + (if r.spotId == Some(spotId) then r.rateCents else 0)
  {
    assert (rs + [r])[..|rs|] == rs;
  }

  /** A booking raises the booked spot's revenue by the lot's price and leaves the other spots' as they were. */
  lemma BookingAddsPrice(rs: seq<Reservation>, id: int, spotId: int, userId: int, vehicle: string, now: int,
                         lot: Lot, other: int)
    ensures RevenueOf(rs + [Booking.NewReservation(id, spotId, userId, vehicle, now, lot)], spotId) ==
            RevenueOf(rs, spotId) + lot.priceCents
    ensures other != spotId ==>
            RevenueOf(rs + [Booking.NewReservation(id, spotId, userId, vehicle, now, lot)], other) == RevenueOf(rs, other)
  {
    var r := Booking.NewReservation(id, spotId, userId, vehicle, now, lot);
    RevenueAppend(rs, r, spotId);
    RevenueAppend(rs, r, other);
  }

  /**
   * Revenue counts the rate at booking, not the cost charged at release:
   * stamping a reservation leaves every spot's revenue unchanged.
   */
  lemma {:induction false} ReleaseKeepsRevenue(rs: seq<Reservation>, j: int, now: int, spotId: int)
    requires 0 <= j < |rs|
    ensures RevenueOf(rs[j := Booking.Closed(rs[j], now)], spotId) == RevenueOf(rs, spotId)
    decreases |rs|
  {
    var rs' := rs[j := Booking.Closed(rs[j], now)];
    if j < |rs| - 1 {
      ReleaseKeepsRevenue(rs[..|rs| - 1], j, now, spotId);
      assert rs'[..|rs'| - 1] == rs[..|rs| - 1][j := Booking.Closed(rs[j], now)];
    } else {
      assert rs'[..|rs'| - 1] == rs[..|rs| - 1];
    }
  }

  // ---------------------------------------------------------------------------
  // parking_summary, admin branch: occupancy per lot

  /** `ReservedSpots.query.filter_by(spot_id=s, leaving_time=None).count()`. */
  function OpenCount(rs: seq<Reservation>, spotId: int): (n: nat)
    ensures n <= |rs|
    ensures n > 0 <==> HasOpenReservation(rs, spotId)
  {
    if rs == [] then 0
    else
      var n := OpenCount(rs[..|rs| - 1], spotId) + (if IsOpenOn(rs[|rs| - 1], spotId) then 1 else 0);
      assert forall j :: 0 <= j < |rs| - 1 ==> rs[..|rs| - 1][j] == rs[j];
      n
  }

  /** The number of the lot's spots, deactivated ones included, that have (open) or lack (!open) an open reservation. */
  function SpotsWithOpen(spots: seq<Spot>, rs: seq<Reservation>, lotId: int, open: bool): (n: nat)
    ensures n <= Count(spots, InLot(lotId))
  {
    if spots == [] then 0
    else
      var s := spots[|spots| - 1];
      SpotsWithOpen(spots[..|spots| - 1], rs, lotId, open) + (if s.lotId == lotId && HasOpenReservation(rs, s.id) == open then 1 else 0)
  }

  /**
   * Where status agrees with the open reservations, the summary's occupied
   * count is the dashboard's: deactivated spots are never Occupied.
   */
  lemma {:induction false} SummaryMatchesDashboard(spots: seq<Spot>, rs: seq<Reservation>, lotId: int)
    requires Occupancy(spots, rs) && InactiveAvailable(spots)
    ensures SpotsWithOpen(spots, rs, lotId, true) == Count(spots, ActiveOccupiedIn(lotId))
    decreases |spots|
  {
    if spots != [] {
      var init := spots[..|spots| - 1];
      assert forall k :: 0 <= k < |init| ==> init[k] == spots[k];
      SummaryMatchesDashboard(init, rs, lotId);
    }
  }

  /** The inner loop over `lot.spots`: one query per spot, counted occupied when it has an open reservation. */
  method CountLot(spots: seq<Spot>, rs: seq<Reservation>, lotId: int) returns (occupied: nat, available: nat)
    ensures occupied == SpotsWithOpen(spots, rs, lotId, true)
    ensures available == SpotsWithOpen(spots, rs, lotId, false)
    ensures occupied + available == Count(spots, InLot(lotId))
  {
    occupied, available := 0, 0;
    for i := 0 to |spots|
      invariant occupied == SpotsWithOpen(spots[..i], rs, lotId, true)
      invariant available == SpotsWithOpen(spots[..i], rs, lotId, false)
      invariant occupied + available == Count(spots[..i], InLot(lotId))
    {
      assert spots[..i + 1][..i] == spots[..i];
      if spots[i].lotId == lotId {
        var active := OpenCount(rs, spots[i].id);
        if active > 0 {
          occupied := occupied + 1;
        } else {
          available := available + 1;
        }
      }
    }
    assert spots[..|spots|] == spots;
  }

  /** One lot's bar of the admin chart: the first word of its name, and its occupied and available counts. */
  datatype LotBar = LotBar(word: Option<string>, occupied: nat, available: nat)

  /** The bar the chart shows for a lot. */
  predicate BarOf(bar: LotBar, lot: Lot, spots: seq<Spot>, rs: seq<Reservation>) {
    && bar.word == FirstWord(lot.primename)
    && bar.occupied == SpotsWithOpen(spots, rs, lot.id, true)
    && bar.occupied + bar.available == Count(spots, InLot(lot.id))
  }

  /** One pass of the outer loop: the lot's label and its two counts. */
  method LotBarFor(lot: Lot, spots: seq<Spot>, rs: seq<Reservation>) returns (bar: LotBar)
    ensures BarOf(bar, lot, spots, rs)
  {
    var occupied, available := CountLot(spots, rs, lot.id);
    bar := LotBar(FirstWord(lot.primename), occupied, available);
  }

  /**
   * The admin summary's lot chart: per lot, the first word of its name
   * (None where the name is blank and Python raises IndexError) and its
   * occupied and available counts.
   */
  method LotSummary(lots: seq<Lot>, spots: seq<Spot>, rs: seq<Reservation>) returns (bars: seq<LotBar>)
    ensures |bars| == |lots|
    ensures forall k :: 0 <= k < |lots| ==> BarOf(bars[k], lots[k], spots, rs)
  {
    bars := [];
    for i := 0 to |lots|
      invariant |bars| == i
      invariant forall k :: 0 <= k < i ==> BarOf(bars[k], lots[k], spots, rs)
    {
      var bar := LotBarFor(lots[i], spots, rs);
      BarsAppend(bars, bar, lots, spots, rs);
      bars := bars + [bar];
    }
  }

  /** Appending the next lot's bar keeps every bar matched to its lot. */
  lemma BarsAppend(bars: seq<LotBar>, bar: LotBar, lots: seq<Lot>, spots: seq<Spot>, rs: seq<Reservation>)
    requires |bars| < |lots| && BarOf(bar, lots[|bars|], spots, rs)
    requires forall k :: 0 <= k < |bars| ==> BarOf(bars[k], lots[k], spots, rs)
    ensures forall k :: 0 <= k < |bars| + 1 ==> BarOf((bars + [bar])[k], lots[k], spots, rs)
  {
    forall k | 0 <= k < |bars| + 1
      ensures BarOf((bars + [bar])[k], lots[k], spots, rs)
    {
      if k < |bars| {
        assert (bars + [bar])[k] == bars[k];
      }
    }
  }

  /** On a consistent database the chart's occupied counts are the dashboard's. */
  lemma LotSummaryMatchesDashboard(lots: seq<Lot>, spots: seq<Spot>, rs: seq<Reservation>, users: seq<User>,
                                   nextLot: int, nextSpot: int, nextRes: int, bars: seq<LotBar>)
    requires TablesValid(lots, spots, rs, users, nextLot, nextSpot, nextRes) && TablesConsistent(spots, rs)
    requires |bars| == |lots|
    requires forall k :: 0 <= k < |lots| ==> BarOf(bars[k], lots[k], spots, rs)
    ensures forall k :: 0 <= k < |lots| ==> bars[k].occupied == Count(spots, ActiveOccupiedIn(lots[k].id))
  {
    forall k | 0 <= k < |lots|
      ensures bars[k].occupied == Count(spots, ActiveOccupiedIn(lots[k].id))
    {
      SummaryMatchesDashboard(spots, rs, lots[k].id);
    }
  }

  // ---------------------------------------------------------------------------
  // parking_summary, user branch: usage per lot name

  /** The user's reservations, in table order. */
  function ReservationsOf(rs: seq<Reservation>, userId: int): (mine: seq<Reservation>)
    ensures |mine| <= |rs|
    ensures forall k :: 0 <= k < |mine| ==> mine[k] in rs && mine[k].userId == userId
  {
    if rs == [] then []
    else
      var init := ReservationsOf(rs[..|rs| - 1], userId);
      assert forall r :: r in rs[..|rs| - 1] ==> r in rs;
      if rs[|rs| - 1].userId == userId then init + [rs[|rs| - 1]] else init
  }

  /** `r.primename_at_booking.split(' ')[0]` for each of the user's reservations. */
  function UsageWords(rs: seq<Reservation>, userId: int): (words: seq<string>)
    ensures |words| == |ReservationsOf(rs, userId)|
  {
    var mine := ReservationsOf(rs, userId);
    seq(|mine|, k requires 0 <= k < |mine| => BeforeSpace(mine[k].primename))
  }

  /** How often w occurs in words. */
  function Occurrences(words: seq<string>, w: string): (n: nat)
    ensures n <= |words|
    ensures n == 0 <==> forall j :: 0 <= j < |words| ==> words[j] != w
  {
    if words == [] then 0
    else Occurrences(words[..|words| - 1], w) + (if words[|words| - 1] == w then 1 else 0)
  }

  /** A `Counter`: its keys in order of first insertion, with their counts. */
  datatype Counter = Counter(keys: seq<string>, counts: seq<nat>)

  /** The position of w among the keys, or -1. */
  function IndexOf(keys: seq<string>, w: string): (i: int)
    ensures -1 <= i < |keys|
    ensures i >= 0 ==> keys[i] == w
    ensures i == -1 <==> w !in keys
  {
    if keys == [] then -1
    else if keys[0] == w then 0
    else
      var j := IndexOf(keys[1..], w);
      if j == -1 then -1 else j + 1
  }

  /** Counting one more w: its count goes up, or it is appended with count 1. */
  function Bump(c: Counter, w: string): Counter
    requires |c.keys| == |c.counts|
  {
    var i := IndexOf(c.keys, w);
    if i < 0 then Counter(c.keys + [w], c.counts + [1]) else Counter(c.keys, c.counts[i := c.counts[i] + 1])
  }

  predicate Distinct(keys: seq<string>) {
    forall i, j :: 0 <= i < j < |keys| ==> keys[i] != keys[j]
  }

  /** The keys of a counter of words: distinct, and exactly the words. */
  predicate KeysOf(keys: seq<string>, words: seq<string>) {
    && Distinct(keys)
    && (forall k :: 0 <= k < |keys| ==> keys[k] in words)
    && (forall j :: 0 <= j < |words| ==> words[j] in keys)
  }

  /** What a counter of words promises: its keys are the distinct words, each counted exactly. */
  predicate CounterOf(c: Counter, words: seq<string>) {
    && |c.keys| == |c.counts|
    && KeysOf(c.keys, words)
    && (forall k :: 0 <= k < |c.keys| ==> c.counts[k] == Occurrences(words, c.keys[k]))
  }

  /** One more occurrence of w adds one to w and nothing to any other word. */
  lemma OccurrencesAppend(words: seq<string>, w: string, x: string)
    ensures Occurrences(words + [w], x) == Occurrences(words, x) + (if w == x then 1 else 0)
  {
    assert (words + [w])[..|words|] == words;
  }

  /** Bumping keeps the keys distinct and makes w one of them. */
  lemma BumpKeys(c: Counter, words: seq<string>, w: string)
    requires |c.keys| == |c.counts| && KeysOf(c.keys, words)
    ensures KeysOf(Bump(c, w).keys, words + [w])
  {
    var keys := Bump(c, w).keys;
    if IndexOf(c.keys, w) < 0 {
      assert keys == c.keys + [w];
      assert keys[|c.keys|] == w;
    }
  }

  /** Bumping keeps every count equal to its key's occurrences. */
  lemma BumpCounts(c: Counter, words: seq<string>, w: string)
    requires CounterOf(c, words)
    ensures CounterOf(Bump(c, w), words + [w])
  {
    BumpKeys(c, words, w);
    var c' := Bump(c, w);
    var i := IndexOf(c.keys, w);
    forall k | 0 <= k < |c'.keys|
      ensures c'.counts[k] == Occurrences(words + [w], c'.keys[k])
    {
      OccurrencesAppend(words, w, c'.keys[k]);
      if i < 0 && k == |c.keys| {
        assert Occurrences(words, w) == 0;
      }
    }
  }

  /** `Counter(words)`, inserting the words in order. */
  function Tally(words: seq<string>): (c: Counter)
    ensures CounterOf(c, words)
  {
    if words == [] then Counter([], [])
    else
      var init := words[..|words| - 1];
      var w := words[|words| - 1];
      assert init + [w] == words;
      BumpCounts(Tally(init), init, w);
      Bump(Tally(init), w)
  }

  function Total(values: seq<nat>): nat {
    if values == [] then 0 else Total(values[..|values| - 1]) + values[|values| - 1]
  }

  /** Raising one count raises the total by one. */
  lemma {:induction false} TotalIncrement(values: seq<nat>, i: int)
    requires 0 <= i < |values|
    ensures Total(values[i := values[i] + 1]) == Total(values) + 1
    decreases |values|
  {
    var v' := values[i := values[i] + 1];
    if i < |values| - 1 {
      TotalIncrement(values[..|values| - 1], i);
      assert v'[..|v'| - 1] == values[..|values| - 1][i := values[i] + 1];
    } else {
      assert v'[..|v'| - 1] == values[..|values| - 1];
    }
  }

  /** Every word is counted exactly once: the counts add up to the number of words. */
  lemma {:induction false} TallyTotal(words: seq<string>)
    ensures Total(Tally(words).counts) == |words|
    decreases |words|
  {
    if words != [] {
      var init := words[..|words| - 1];
      var c := Tally(init);
      TallyTotal(init);
      var w := words[|words| - 1];
      assert Tally(words) == Bump(c, w);
      BumpTotal(c, w);
    }
  }

  /** A bump adds one to the total of the counts. */
  lemma BumpTotal(c: Counter, w: string)
    requires |c.keys| == |c.counts|
    ensures Total(Bump(c, w).counts) == Total(c.counts) + 1
  {
    var i := IndexOf(c.keys, w);
    if i < 0 {
      assert (c.counts + [1])[..|c.counts|] == c.counts;
    } else {
      TotalIncrement(c.counts, i);
    }
  }

  /** `max(values) if values else 1`. */
  function MaxValue(values: seq<nat>): (m: nat)
    ensures values == [] ==> m == 1
    ensures values != [] ==> m in values && forall k :: 0 <= k < |values| ==> values[k] <= m
  {
    if values == [] then 1
    else if |values| == 1 then values[0]
    else
      var m := MaxValue(values[..|values| - 1]);
      assert forall k :: 0 <= k < |values| - 1 ==> values[..|values| - 1][k] == values[k];
      if values[|values| - 1] > m then values[|values| - 1] else m
  }

  /** The user summary's chart data. */
  datatype UsageChart = UsageChart(labels: seq<string>, values: seq<nat>, maxValue: nat)

  /** Every count in a counter of words is positive, so the chart's scale is at least 1. */
  lemma MaxValuePositive(c: Counter, words: seq<string>)
    requires CounterOf(c, words)
    ensures MaxValue(c.counts) >= 1
  {
    if c.counts != [] {
      var k :| 0 <= k < |c.counts| && c.counts[k] == MaxValue(c.counts);
      assert c.keys[k] in words;
    }
  }

  /**
   * The user branch of parking_summary: the user's reservations counted by
   * the first word of the lot name they were booked under.
   */
  function UserSummary(rs: seq<Reservation>, userId: int): (chart: UsageChart)
    ensures |chart.labels| == |chart.values|
    ensures KeysOf(chart.labels, UsageWords(rs, userId))
    ensures forall k :: 0 <= k < |chart.labels| ==> chart.values[k] == Occurrences(UsageWords(rs, userId), chart.labels[k])
    ensures Total(chart.values) == |ReservationsOf(rs, userId)|
    ensures chart.maxValue >= 1
    ensures chart.values == [] ==> chart.maxValue == 1
    ensures chart.values != [] ==> chart.maxValue in chart.values
    ensures forall k :: 0 <= k < |chart.values| ==> chart.values[k] <= chart.maxValue
    ensures chart.maxValue == MaxValue(chart.values)
  {
    var words := UsageWords(rs, userId);
    var c := Tally(words);
    TallyTotal(words);
    MaxValuePositive(c, words);
    UsageChart(c.keys, c.counts, MaxValue(c.counts))
  }
}
