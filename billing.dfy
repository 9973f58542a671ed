/**
 * Money. Prices, rates and costs are Numeric(10, 2) columns and Python
 * `Decimal`s; the model keeps a stored amount as a whole number of paise
 * (hundredths of a rupee) and a computed cost as an exact real.
 */
module Billing {

  /** The largest amount, in paise, a Numeric(10, 2) column holds: 99999999.99. */
  const MaxNumericCents: int := 9_999_999_999

  predicate FitsNumeric(cents: int) {
    -MaxNumericCents <= cents <= MaxNumericCents
  }

  /**
   * `round(price, 2)` on a Decimal, in paise: the nearest whole number of
   * paise, a tie going to the even neighbour (the Decimal context's
   * ROUND_HALF_EVEN).
   */
  function RoundCents(price: real): (c: int)
    ensures (c as real) - 0.5 <= price * 100.0 <= (c as real) + 0.5
    ensures (price * 100.0 == (c as real) - 0.5 || price * 100.0 == (c as real) + 0.5) ==> c % 2 == 0
  {
    var x := price * 100.0;
    var f := x.Floor;
    var frac := x - f as real;
    if frac < 0.5 then f
    else if frac > 0.5 then f + 1
    else if f % 2 == 0 then f
    else f + 1
  }

  /** The two properties above pin the rounded amount down: there is no other candidate. */
  lemma RoundCentsUnique(price: real, n: int)
    requires (n as real) - 0.5 <= price * 100.0 <= (n as real) + 0.5
    requires (price * 100.0 == (n as real) - 0.5 || price * 100.0 == (n as real) + 0.5) ==> n % 2 == 0
    ensures n == RoundCents(price)
  {
  }

  /** A price already given to two places is stored exactly. */
  lemma RoundCentsExact(cents: int)
    ensures RoundCents(cents as real / 100.0) == cents
  {
    RoundCentsUnique(cents as real / 100.0, cents);
  }

  /** A price inside the form's range [0, 999] is stored as 0 to 99900 paise, well inside Numeric(10, 2). */
  lemma RoundCentsBounds(price: real)
    requires 0.0 <= price <= 999.0
    ensures 0 <= RoundCents(price) <= 99900
    ensures FitsNumeric(RoundCents(price))
  {
  }

  /** A positive price below half a paisa is stored as zero; a tie rounds to the even paisa. */
  lemma RoundCentsExamples()
    ensures RoundCents(0.004) == 0
    ensures RoundCents(2.675) == 268
    ensures RoundCents(2.665) == 266
    ensures RoundCents(19.999) == 2000
  {
    RoundCentsUnique(0.004, 0);
    RoundCentsUnique(2.675, 268);
    RoundCentsUnique(2.665, 266);
    RoundCentsUnique(19.999, 2000);
  }

  /**
   * The parking fee: elapsed seconds / 3600 x hourly rate, the rate being
   * the lot's price snapshotted at booking (in paise); the result is in rupees.
   */
  function Cost(parkedAt: int, leftAt: int, rateCents: int): (cost: real)
    ensures parkedAt <= leftAt && 0 <= rateCents ==> 0.0 <= cost
    ensures parkedAt == leftAt ==> cost == 0.0
  {
    ((leftAt - parkedAt) as real / 3600.0) * (rateCents as real / 100.0)
  }

  /** Two hours at 20.00 an hour cost 40.00. */
  lemma CostExample()
    ensures Cost(0, 7200, 2000) == 40.0
    ensures Cost(1_000_000, 1_007_200, 2000) == 40.0
  {
  }

  /** Splitting a stay at any instant splits its fee: billing is additive over time. */
  lemma CostAdditive(parkedAt: int, splitAt: int, leftAt: int, rateCents: int)
    ensures Cost(parkedAt, leftAt, rateCents) == Cost(parkedAt, splitAt, rateCents) + Cost(splitAt, leftAt, rateCents)
  {
  }

  /** Leaving later never costs less, at a non-negative rate. */
  lemma CostMonotone(parkedAt: int, leftAt: int, laterAt: int, rateCents: int)
    requires leftAt <= laterAt && 0 <= rateCents
    ensures Cost(parkedAt, leftAt, rateCents) <= Cost(parkedAt, laterAt, rateCents)
  {
    CostAdditive(parkedAt, leftAt, laterAt, rateCents);
  }
}
