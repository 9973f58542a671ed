# Parking-lot application: a verified model of its core

The application is a Flask + SQLAlchemy web app for a car-parking business.
An administrator creates parking lots. Each lot has a name, an address, a
six-character pincode, an hourly price and a maximum number of spots. The
administrator resizes a lot, deletes free spots, and looks at dashboards and
searches that show how many spots of each lot are occupied. A user picks a
lot, books a free spot for a vehicle (validated against the Indian
standard and BH-series number plate formats), and later releases it. The
release is billed as elapsed hours times the rate copied at booking. Both
roles get a summary page with charts. Every user can edit their profile,
whose e-mail address must stay unique.

This project models that core in Dafny and proves what it promises:

- `wrappers.dfy`: Option.
- `text.dfy`: the string functions the handlers call: `strip`, `upper`,
  `lower`, `LIKE '%q%'`, `split()[0]`, `split(' ')[0]`.
- `plate.dfy`: the number-plate pattern.
- `billing.dfy`: paise, `round(x, 2)` and the parking fee.
- `models.dfy`: the rows of the three parking tables and the user profile.
- `forms.dfy`: the form validators.
- `tables.dfy`: the filtered counts and key lookups the handlers run.
- `store.dfy`: the `Database` class that holds the tables, and the
  invariants every handler keeps:
  - unique keys, below the next key;
  - every lot has exactly `maxspots` active spots;
  - deactivated spots are free;
  - a spot is Occupied exactly when it has an open reservation;
  - one open reservation per spot and per vehicle number;
  - unique e-mail addresses.
- `admin.dfy`: admin/admin.py (`edit_lot`, `spot_view`, `dashboard`,
  `lot_search`, `spot_details`).
- `booking.dfy`: user/user.py (`book_spot`, `spot_release`,
  `user_dashboard`, `parking_search`).
- `app.dfy`: app.py (`edit_profile`, `parking_summary`).

Handlers that change the database are methods on a `Database` object:
one atomic step, with an error outcome that leaves every table unchanged
(a rolled-back or never-committed session). Queries that only compute are
functions. Loops that build lists or counters are methods with loop
invariants, specified by the functions they compute. Timestamps are whole
seconds passed in as parameters. Money is held in paise.

The model follows what the code does where it differs from what its own
names and messages suggest. Two examples:
- forms/forms.py:15 declares `NumberRange(min=0, max=999)` for the price,
  yet the `DataRequired` before it rejects 0, so the form's price is strictly
  positive. A price under half a paisa is still stored as 0.00 by the
  two-place column.
- user/user.py:69-71 calls the list `available_spots` but filters it only
  on status 'A', so the booking preselection can pick a deactivated spot.

## Model

| member | source | states |
|---|---|---|
| Text.Strip | admin/admin.py:169 | the result is the input minus leading and trailing whitespace, with Python's whitespace set (Unicode spaces such as U+00A0 and U+3000 included): input = blank + result + blank, result empty iff input blank, otherwise it starts and ends with a non-space |
| Text.StripIdempotent | app.py:113-116 | stripping a stored (already stripped) value again changes nothing |
| Text.StripTrailingNewline | user/user.py:87 | stripping a stripped, non-empty number followed by one newline gives the number back |
| Text.Upper | user/user.py:87 | upper-casing keeps the length and maps each character to its capital |
| Text.UpperIdempotent | user/user.py:94 | `upper` of an upper-cased number is the number itself, so SQL UPPER on stored numbers compares like the handler's own normalisation |
| Text.UpperKeepsStripped | user/user.py:87 | upper-casing a stripped text leaves it stripped, so the handler's normalised number has no surrounding whitespace |
| Text.ContainsIff | admin/admin.py:177 | `LIKE '%q%'` holds exactly when q occurs in the text at some index |
| Text.ContainsEmpty | user/user.py:164-167 | the empty pattern matches every text |
| Text.FirstWord | app.py:154 | `split()[0]`: None exactly when the text is blank (IndexError), otherwise the longest whitespace-free prefix of the text with its leading whitespace removed, which is non-empty |
| Text.BeforeSpace | app.py:178 | `split(' ')[0]`: the prefix up to the first space, followed by a space or the end |
| Text.BeforeSpaceIsFirstWord | app.py:154 | on a name that starts with a non-space and has no tabs or newlines, the two ways of taking the first word agree |
| Plate.StandardPlateIff | user/user.py:20 | the scanner for the first alternative accepts exactly the texts `[A-Z]{2}\d{2}[A-Z]{1,2}\d{1,4}` matches, for some series length |
| Plate.BharatPlateIff | user/user.py:20 | the scanner for the second alternative accepts exactly `\d{2}BH\d{4}[A-Z]{2}` |
| Plate.PatternMatches | forms/forms.py:58 | `re.match` of the anchored pattern: a plate, or a plate followed by one final newline, which Python's `$` lets through |
| Plate.StrippedMatchIsPlate | user/user.py:89 | on a stripped text the pattern matches exactly the plates |
| Plate.TrailingNewlineMatches | forms/forms.py:58 | "MH12AA7842" followed by a newline passes the pattern although it is not itself a plate |
| Plate.PlateFormsDisjoint | user/user.py:20 | no number matches both alternatives |
| Plate.ValidPlateLength | user/user.py:20 | a valid number has 6 to 10 characters, inside the 15-character column |
| Plate.ValidPlateIsNormal | user/user.py:87-89 | a valid number is upper-case letters and digits only, so strip and upper leave it unchanged |
| Plate.ExamplesAccepted | forms/forms.py:58-59 | the two sample numbers in the validator's message are accepted |
| Plate.ExamplesRefused | user/user.py:20 | lower case, a missing series, a five-digit tail and a three-digit BH prefix are refused |
| Billing.RoundCents | admin/admin.py:216 | the stored paise amount is within half a paisa of the price, and a price exactly halfway between two paise goes to the even one |
| Billing.RoundCentsExact | admin/admin.py:274 | a price already given to two places is stored unchanged |
| Billing.RoundCentsExamples | admin/admin.py:216 | 0.004 rounds to 0, 2.675 to 2.68, 2.665 to 2.66, 19.999 to 20.00 |
| Billing.RoundCentsBounds | forms/forms.py:14-15 | a price inside the form's range is stored as 0 to 99900 paise, inside Numeric(10, 2) |
| Billing.Cost | user/user.py:38-40 | elapsed hours times the rate: non-negative for a non-negative stay and rate, zero for a zero stay |
| Billing.CostMonotone | user/user.py:38-40 | leaving later never costs less |
| Models.ParseStatus | models/models.py:63-67 | the status column accepts exactly 'A' and 'O', and reads back what was written |
| Models.StatusRoundTrip | models/models.py:67 | writing a status and reading it back gives the same status |
| Forms.LotFormBounds | forms/forms.py:10-17 | a valid lot form has a positive price of at most 999 rounding to 0..99900 paise, at least one spot, and non-empty stripped name, address and pincode |
| Forms.LotFormValid | forms/forms.py:10-17 | ParkingLotForm's validators: non-blank name of 2 to 100 characters, non-blank address, non-blank six-character pincode, a non-zero price in [0, 999], and a non-zero maxspots of at least 1 |
| Forms.BookFormValid | forms/forms.py:52-59 | BookSpotFrom's validators on the number as typed: non-blank and matching the plate pattern |
| Forms.BookFormAccepts | forms/forms.py:57-59 | the booking form passes exactly a plate, or a plate followed by one newline |
| Forms.SearchFormValid | forms/forms.py:63-67 | LotSearchForm's validators: one of the three choices and a non-blank query |
| Forms.SearchFormAccepts | forms/forms.py:63-67 | the search form passes exactly for "user_id", "address" or "pincode" with a query that is non-empty once stripped |
| Forms.ContactFieldsValid | forms/forms.py:21-24 | the fields ExtendedForm adds and EditProfileForm repeats: non-blank address and name and a non-blank six-character pincode |
| Forms.ProfileFormValid | forms/forms.py:72-76 | EditProfileForm's validators: a non-blank, well-formed e-mail address and valid contact fields |
| Forms.ProfileFormBounds | forms/forms.py:72-76 | a valid profile form has a well-formed e-mail address, e-mail, address and name non-empty once stripped, and a pincode of 1 to 6 characters once stripped |
| Forms.PincodeOnlyLengthChecked | forms/forms.py:13 | the pincode validators check length only: six letters, and a padded four-digit code, both pass |
| Forms.PaddedPincodeStoredShort | admin/admin.py:276 | that padded code is stored stripped, four characters long |
| Forms.ParseCriterion | forms/forms.py:64-65 | the search select accepts exactly its three choice values |
| Forms.CriterionRoundTrip | forms/forms.py:64-65 | each choice's value parses back to that choice |
| Tables.Count | admin/admin.py:185 | a filtered count is at most the table size, and zero exactly when no row matches |
| Tables.FirstWhere | admin/admin.py:61 | `query.filter(...).first()`: the first row the filter selects, no earlier row selected, or -1 exactly when it selects none |
| Tables.CountUpdate | admin/admin.py:223-224 | changing one row changes a count by what the old and new row contribute |
| Tables.CountRemove | admin/admin.py:69 | deleting one row lowers a count by what that row contributed |
| Tables.CountActiveSplit | admin/admin.py:205 | a lot's active spots are its active Available plus active Occupied spots |
| Tables.HighestMatch | admin/admin.py:220-221 | `order_by(spot_no.desc()).first()`: a matching row whose number is at least every matching row's, or -1 when none matches |
| Tables.FindSpot | admin/admin.py:61 | `filter_by(id=, active=True).first()`: a row with that id (and active when asked), or -1 exactly when there is none |
| Tables.FindLot | user/user.py:65 | `get(lot_id)`: a row with that id, or -1 exactly when there is none |
| Tables.FindReservation | user/user.py:26 | `get_or_404(rev_id)`: a row with that id, or -1 exactly when there is none |
| Tables.FirstReservationOn | admin/admin.py:97 | the earliest reservation row on the spot, open or closed, or -1 when there is none |
| Store.Database.constructor | models/models.py:45-83 | a fresh database holding registered users satisfies every table invariant |
| Admin.SetActiveOnHighest | admin/admin.py:219-237 | flips the `active` flag on at most `limit` candidate spots of the lot, always the highest-numbered remaining candidate, and reports how many; counts move by exactly that many |
| Admin.FlipHighest | admin/admin.py:220-224 | flipping the highest-numbered remaining candidate keeps the highest-first order |
| Admin.AppendSpots | admin/admin.py:239-243 | appends n new spots numbered consecutively from `first`, all Available and active, with fresh ids |
| Admin.NextSpotNo | admin/admin.py:228-240 | one past the highest number any spot of the lot has (active or not), or 1 for a lot without spots |
| Admin.ShrinkPool | admin/admin.py:219-224 | deactivates exactly n active Available spots of the lot, highest number first; keys, statuses and other lots are unchanged |
| Admin.GrowPool | admin/admin.py:227-243 | reactivates deactivated spots highest number first, then appends only what is still missing; the active count rises by exactly n |
| Admin.GrowFacts | admin/admin.py:229-243 | reactivation leaves no deactivated spot behind before any new spot is created, and keeps every invariant |
| Admin.ResizePool | admin/admin.py:219-243 | afterwards the lot has exactly `new_max` active spots; shrink deactivates only Available spots, grow reactivates before creating; Occupied spots are never touched |
| Admin.ResizeKeepsTables | admin/admin.py:247 | setting `maxspots = new_max` after the resize keeps every table invariant |
| Admin.ResizeLot | admin/admin.py:196-259 | unknown lot, invalid form and `new_max` below the active Occupied count are refused with nothing changed; otherwise the lot's fields are stripped, its price rounded, the spots resized, and the invariants kept |
| Admin.ShrinkExample | admin/admin.py:208-224 | maxspots 5 with spots 1-2 Occupied, resized to 3: exactly spots 4 and 5 are deactivated |
| Admin.CreateLot | admin/admin.py:261-303 | an invalid form or an address already in use is refused with nothing changed; otherwise one lot is added with spots numbered 1..maxspots, all Available and active |
| Admin.CreateKeepsTables | admin/admin.py:272-290 | adding the lot and its spots keeps every table invariant |
| Admin.EditLot | admin/admin.py:196-303 | a lot id of None or 0 takes the create branch, any other id the resize branch; each branch states its refusals both ways (unknown lot, invalid form, below the occupied count; invalid form, address in use) and its saved state: the resized lot and pool, or the new lot with spots numbered 1..maxspots, all Available and active |
| Admin.Detach | admin/admin.py:69 | deleting a spot sets `spot_id` to None on exactly its reservations and leaves every other field and every other row as it was |
| Admin.DetachKeepsOthers | admin/admin.py:69 | clearing those references changes no other spot's open reservations and keeps reservation uniqueness |
| Admin.DeleteKeepsCapacity | admin/admin.py:69-72 | deleting an active spot and decrementing its lot's maxspots keeps "maxspots = active spots" |
| Admin.DeleteKeepsConsistent | admin/admin.py:66-69 | deleting an Available spot keeps status and open reservations in agreement |
| Admin.DeleteSpot | admin/admin.py:58-88 | a missing or deactivated spot is a 404 and an Occupied spot is refused, both with nothing changed; otherwise the spot is deleted, its reservations detached, and its lot's maxspots decremented unless already 0 |
| Admin.Dashboard | admin/admin.py:24-54 | exactly the active lots with an active spot, each with its count of active Occupied spots, which never exceeds maxspots; on a valid database each lot once and in table order |
| Admin.ListMatches | admin/admin.py:176-185 | exactly the lots, active or not, that the criterion selects, each with its count of spots with status 'O'; on a valid database each lot once and in table order |
| Admin.LotSearch | admin/admin.py:158-188 | an invalid form lists nothing; otherwise the address and pincode criteria list exactly the matching lots for the stripped query, each once and in table order on a valid database |
| Admin.SearchCountIsDashboardCount | admin/admin.py:185 | with deactivated spots free, the search's count of 'O' spots equals the dashboard's active count |
| Admin.FirstReservationCost | admin/admin.py:96-114 | as written: a cost exists exactly when the spot is active and has any reservation, and it is the fee of the spot's first reservation, open or closed |
| Admin.OpenReservationOn | admin/admin.py:97-100 | an open reservation on the spot, or -1 exactly when there is none |
| Admin.RunningCost | admin/admin.py:92-121 | corrected: a cost exists exactly when the spot is active and has an open reservation, and it is that reservation's fee so far |
| Admin.FirstReservationCostIsStale | admin/admin.py:97-100 | on a consistent state the first-reservation estimate shows 60.00 for a finished stay while the car parked now owes 20.00 |
| Booking.LowestIdMatch | user/user.py:71 | a selected spot whose id is at most every selected spot's, or -1 exactly when none is selected |
| Booking.PreselectedSpot | user/user.py:69-78 | as written: the lowest-id spot of the lot with status 'A', deactivated ones included; None exactly when there is none |
| Booking.PreselectedActiveSpot | user/user.py:69-86 | corrected: the lowest-id active Available spot, which the booking step then finds, Available, in the lot |
| Booking.PreselectedSpotMayBeDeactivated | user/user.py:69-84 | a lot whose spot 1 was deactivated: the form preselects spot 1, which the booking lookup does not find, while active spot 2 is free |
| Booking.ReopenedStateValid | admin/admin.py:219-243 | that lot is a state the tables can be in: it keeps every table invariant |
| Booking.FormPassImpliesPlate | user/user.py:84-89 | a number that passes the form's pattern is a plate, or a plate plus one final newline; its stripped, upper-cased form is that plate, so the handler's own pattern check never refuses it |
| Booking.BookKeepsConsistent | user/user.py:94-111 | marking an Available spot Occupied and adding an open reservation for a number not already parked keeps status and open reservations in agreement |
| Booking.BookSpot | user/user.py:62-129 | unknown lot, invalid form, missing or deactivated spot, spot not 'A', and vehicle already parked are refused with nothing changed; otherwise the spot becomes Occupied and one open reservation for the stripped, upper-cased number is added at the lot's price, address and name |
| Booking.Closed | user/user.py:37-40 | a released reservation gets leaving time `now` and the fee for parking time to `now` at the booked rate, non-negative for a non-negative stay and rate; every other field is kept |
| Booking.Release | user/user.py:23-58 | as written: any found reservation whose spot exists is stamped and its spot set Available, even a reservation already released |
| Booking.DoubleReleaseFreesOccupiedSpot | user/user.py:36-44 | on a consistent state, releasing a closed reservation again frees a spot a later booking occupies and breaks "Occupied iff open reservation" |
| Booking.ReleaseOpen | user/user.py:23-58 | corrected: an already released reservation is refused with nothing changed, so every release keeps status and open reservations in agreement |
| Booking.ReleaseKeepsConsistent | user/user.py:37-44 | closing an open reservation and freeing its spot keeps status and open reservations in agreement |
| Booking.EstimateIsReleaseCost | admin/admin.py:114 | the corrected estimate equals the fee a release at the same instant charges |
| Booking.Availability | user/user.py:141 | a lot's availability is at most its number of spots |
| Booking.AvailabilityCountsDeactivated | user/user.py:141 | availability equals maxspots minus occupied plus the lot's deactivated spots |
| Booking.EmptyQueryListsAll | user/user.py:160-167 | an empty query lists every lot |
| Booking.ListAvailability | user/user.py:164-173 | exactly the lots the query matches (pincode when all digits, otherwise address), each with its availability; on a valid database each lot once and in table order |
| Booking.ParkingSearch | user/user.py:154-176 | the stripped query lists exactly the matching lots, each with its availability and, on a valid database, once and in table order; a blank query lists every lot |
| App.FindEmail | app.py:107 | the first user with that address, or -1 exactly when nobody has it |
| App.EmailRejectedIffHeldByOther | app.py:106-111 | with unique addresses the guard refuses exactly an address another user holds |
| App.EditKeepsUsersDistinct | app.py:106-116 | writing an address the guard lets through keeps e-mail addresses and user ids unique |
| App.EditProfile | app.py:97-133 | an invalid form, and an address held by another user, are refused with nothing changed; otherwise the user's row gets the stripped fields and addresses stay unique |
| App.SpotRevenue | app.py:141-146 | one row per spot with a reservation and only those, each with the sum of its reservations' booking rates; spot ids distinct |
| App.RevenueAppend | app.py:141-143 | a new reservation adds its rate to its own spot's revenue and nothing to any other |
| App.BookingAddsPrice | app.py:141-143 | a booking raises the booked spot's revenue by the lot's price and leaves every other spot's unchanged |
| App.ReleaseKeepsRevenue | app.py:141-143 | revenue counts the rate at booking, so a release leaves every spot's revenue unchanged |
| App.OpenCount | app.py:161-162 | the spot's count of reservations without a leaving time is positive exactly when it has an open reservation |
| App.SpotsWithOpen | app.py:160-165 | a lot's count of spots with, or without, an open reservation is at most its number of spots |
| App.CountLot | app.py:157-168 | occupied counts the lot's spots with an open reservation, available the rest, and they add up to the lot's number of spots |
| App.LotSummary | app.py:148-168 | one bar per lot in table order: the first word of its name, its occupied count, and occupied + available = its spots |
| App.SummaryMatchesDashboard | app.py:160-165 | where status agrees with open reservations, the summary's occupied count equals the dashboard's |
| App.LotSummaryMatchesDashboard | app.py:153-168 | on a valid, consistent database every bar's occupied count is the dashboard's |
| App.Occurrences | app.py:179 | how often a word occurs is zero exactly when it does not occur |
| App.Tally | app.py:179-182 | `Counter`: the keys are exactly the distinct words, each counted as often as it occurs |
| App.TallyTotal | app.py:179-182 | the counts add up to the number of words: each reservation is counted once |
| App.MaxValue | app.py:184 | 1 for no values, otherwise one of the values and at least every value |
| App.MaxValuePositive | app.py:184 | the chart's maximum is at least 1 |
| App.UserSummary | app.py:175-186 | labels are the distinct first words of the user's reservations' lot names, each value how many of their reservations have it, the values summing to their number of reservations; max_value is the largest value, or 1 when there is none |

## Left out

- Flask routing, templates, `flash`/`redirect`, the login and role decorators, and the Flask-Security set-up and seeding (app.py:20-94). These are framework glue, not domain logic.
- The GET branches that only render a form. The one exception is the booking preselection (user/user.py:67-78), which is modelled.
- SQLAlchemy sessions, commit and rollback. Each handler is one atomic step. The failure branches after a commit error are not separate outcomes.
- Clock reads and the IST/UTC conversion. Times are whole seconds given as parameters.
- Display rounding of costs, and the float conversion of revenue values (app.py:146). Amounts stay in exact paise and reals.
- `lot_delete` (admin/admin.py:133-155). As written it has no coherent behaviour: it 404s exactly when no occupied spot exists, calls `.id` on a count, and misspells `active`.
- The `ParkingSpot` lookup for a lot at admin/admin.py:199. It is modelled as the lot lookup it is meant to be.
- Admin.LotSearch: the `user_id` criterion (admin/admin.py:171-174) is excluded by its precondition. The join with users' reservations is not part of this model.
- Admin.LotSearch, Booking.ParkingSearch: `%` and `_` typed inside a query act as SQL wildcards. The model treats the query as literal text.
- Booking.BookSpot: the spot id arrives as form text (user/user.py:84). The model takes it already parsed as an integer.
- Text.Upper, Text.Lower, Plate: ASCII letters and digits only. Python's Unicode case mapping and Unicode `\d` are not modelled. Whitespace (Text.Strip, Text.FirstWord, Forms.Required) follows Python's full whitespace set.
- Text.IsDigits, Booking.ParkingSearch: `str.isdigit` (user/user.py:164) is read on ASCII digits only. A query of other Unicode digits, such as "²" or "١٢", takes the address branch here, where the source takes the pincode branch.
- Booking.Closed, Booking.Release, Admin.RunningCost: the fee is kept as the exact unrounded real. The `Numeric(10, 2)` column (models/models.py:83) stores it to two places, so the stored fee can differ from the model's by up to half a paisa.
- Forms.BookFormValid: only the vehicle number is checked. The price `DecimalField` of the booking form (forms/forms.py:56) and the CSRF token are not modelled; the handler reads the price from the lot.
- App.LotSummary: a lot whose name is blank makes `split()[0]` raise `IndexError` (app.py:154) and the summary page fails. The model goes on with a `None` label for that lot.
- Admin.Dashboard, Admin.ListMatches, Booking.ParkingSearch, Booking.ListAvailability: the queries have no `ORDER BY`. The listing order is stated under the assumption that the database returns rows in table (insertion) order.
- Admin.Dashboard: the `filtered_spots` dictionary (admin/admin.py:49) is a display list of each lot's active spots. It is not modelled.
- The e-mail syntax check of `EditProfileForm` is done by an external package. Its verdict is a boolean field of the form.
- The browser script (static/script.js) and concurrency: there is no locking, and races are left to the database.

## Findings

| source | as written | input that shows it | evidently intended | confidence | as-written member | corrected member |
|---|---|---|---|---|---|---|
| user/user.py:23-58 | `spot_release` stamps and frees the spot of any reservation, open or already released | reservation 1 on spot 1 released at 3600; reservation 2 booked on spot 1 at 7200; releasing reservation 1 again at 10800 sets spot 1 Available while reservation 2 is open, and overwrites reservation 1's fee with 60.00 | refuse a reservation that already has a leaving time | not executed | Booking.Release, Booking.DoubleReleaseFreesOccupiedSpot | Booking.ReleaseOpen |
| admin/admin.py:97-100 | `spot_details` estimates the cost from the spot's first reservation, open or closed | same state at 10800: the estimate is 60.00 (3 h of the finished first stay) while the parked car owes 20.00 | estimate from the spot's open reservation | not executed | Admin.FirstReservationCost, Admin.FirstReservationCostIsStale | Admin.RunningCost |
| user/user.py:69-71 | the booking form preselects the lowest-id spot with status 'A', deactivated spots included | maxspots 1 with spot 1 deactivated and spot 2 active: spot 1 is preselected, and booking it is a 404 | preselect among active spots only | not executed | Booking.PreselectedSpot, Booking.PreselectedSpotMayBeDeactivated | Booking.PreselectedActiveSpot |
