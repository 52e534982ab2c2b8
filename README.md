# Campsite reservation service: a Dafny model of its booking logic

The service rents out one campsite. Visitors can ask which days of a window are
free, book a short stay, change a stay or cancel it. Most of the code is web,
JDBC and reactive glue. This project models the parts that hold logic:

- **The free-date calculator** (`AvailabilityService.findAvailabilities`). It takes
  a requested half-open window `[start, end)` and the occupied intervals. It keeps
  the intervals that intersect the window and walks them with a cursor. For each
  one it emits the free days before it, clamped with `maximum`/`minimum`, and
  after the last one it emits the rest of the window. `FindAvailabilities` is that
  loop. It is proved equal to `FreeDates`, an independent definition that picks
  out the window days no interval covers. The lemmas about `FreeDates` state
  the properties of the result.
- **Date validation** (`ReservationDateValidation.validateDates`). Four ordered
  checks; the first that fails decides the error. The current day is a parameter.
- **The booking endpoints** (`ReservationController`). Each one validates the
  dates, then applies the three-day rule, then makes one store call. An
  integrity violation from the store becomes a BAD_REQUEST that names the
  requested range. The store is a class that records every call it receives.
  Its answers come from outside, so the contracts can say that a refused
  request never reaches it.
- **The range text format.** `DateInterval.toString` writes `"[start,end)"`.
  `ReservationDAO.parsePeriodFromDateRangeString` removes the brackets, splits on
  commas and subtracts one day from the end, turning the exclusive end into an
  inclusive one. Both are modelled on strings and proved to be a round trip.

Every `LocalDate` is an `int` day number. Date text is a `DateCodec`: a pair of
functions between day numbers and text, as `LocalDate.toString` and
`LocalDate.parse` are. `ValidCodec` states what the range format needs of it:
the text is never empty, uses only digits, `-` and `+`, and parses back to the
same day. `DateText.DecimalCodec` writes a day number in signed decimal and is
proved valid, so the condition can be met.

`Period.between(start, end).getDays()` is the parameter `periodDays` of the
controller. The lemmas about the three-day rule assume only `ExactForShortSpans`:
for a span of 0 to 27 days, `getDays()` is the span itself. That holds because
every month has at least 28 days.

Where the design description and the code differ, the model follows the code:

- the calculator does not sort its input;
- there is no booking-horizon check;
- cancelling an unknown reservation is not a separate outcome, because the
  controller only forwards the id.

`modifyReservation` passes no id to the service, whose `updateReservation`
takes one; the model passes the id explicitly.

Files: `wrappers.dfy` (Option, Result, Outcome), `date_text.dfy`,
`date_interval.dfy`, `availability_service.dfy`, `reservation_date_validation.dfy`,
`reservation_controller.dfy`, `reservation_dao.dfy`.

## Model

| member | source | states |
|---|---|---|
| AvailabilityService.Minimum | src/main/java/com/upgrade/islandrsvsrv/services/AvailabilityService.java:44-46 | the result is one of the two days and is no later than either |
| AvailabilityService.Maximum | src/main/java/com/upgrade/islandrsvsrv/services/AvailabilityService.java:48-50 | the result is one of the two days and is no earlier than either |
| AvailabilityService.DatesUntil | src/main/java/com/upgrade/islandrsvsrv/services/AvailabilityService.java:26-28 | `datesUntil`: exactly `last - first` days, the i-th being `first + i` |
| AvailabilityService.Filter | src/main/java/com/upgrade/islandrsvsrv/services/AvailabilityService.java:20-23 | an interval is kept exactly when `r.start < w.end && w.start < r.end`; no other interval appears |
| AvailabilityService.FilterConcat | src/main/java/com/upgrade/islandrsvsrv/services/AvailabilityService.java:20-23 | filtering keeps the input order (it distributes over concatenation) |
| AvailabilityService.FindAvailabilities | src/main/java/com/upgrade/islandrsvsrv/services/AvailabilityService.java:15-42 | the cursor walk returns exactly `FreeDates(window, intervals)`, for a window with `start <= end` whose intersecting intervals are non-empty, sorted and non-overlapping (touching allowed) |
| AvailabilityService.FreeDatesMembers | src/main/java/com/upgrade/islandrsvsrv/services/AvailabilityService.java:31-39 | a day is returned iff it lies in `[w.start, w.end)` and in no occupied interval: nothing returned is occupied or outside the window, and no free day is missed |
| AvailabilityService.FreeDatesAscending | src/main/java/com/upgrade/islandrsvsrv/services/AvailabilityService.java:32-39 | the returned days are strictly ascending, so there are no duplicates |
| AvailabilityService.FreeDatesOfFiltered | src/main/java/com/upgrade/islandrsvsrv/services/AvailabilityService.java:20-23 | dropping the intervals that do not intersect the window changes no free day |
| AvailabilityService.NonIntersectingIgnored | src/main/java/com/upgrade/islandrsvsrv/services/AvailabilityService.java:20-23 | adding an interval that does not intersect the window, one that only touches its start or end included, leaves the result unchanged |
| AvailabilityService.NothingIntersectsAllFree | src/main/java/com/upgrade/islandrsvsrv/services/AvailabilityService.java:25-29 | when no interval intersects the window, the result is every day `start, start+1, ..., end-1` |
| AvailabilityService.CoveredWindowEmpty | src/test/java/com/upgrade/islandrsvsrv/services/AvailabilityServiceTest.java:177-194 | an interval that covers the whole window leaves nothing free |
| AvailabilityService.SingleReservationClamped | src/main/java/com/upgrade/islandrsvsrv/services/AvailabilityService.java:33-35 | with one intersecting reservation, the free days are those from the window start to `maximum(w.start, r.start)` and from `minimum(w.end, r.end)` to the window end |
| AvailabilityService.TouchingReservationsMerge | src/test/java/com/upgrade/islandrsvsrv/services/AvailabilityServiceTest.java:87-113 | two reservations with `a.end == b.start` leave the same free days as the single interval `[a.start, b.end)`, so there is no free day between them |
| AvailabilityService.NoReservations | src/test/java/com/upgrade/islandrsvsrv/services/AvailabilityServiceTest.java:28-41 | for any `now`, with no reservations, the window `[now, now+10)` is free from `now` to `now+9` |
| AvailabilityService.ReservationAtWindowStart | src/test/java/com/upgrade/islandrsvsrv/services/AvailabilityServiceTest.java:43-60 | for any `now`, a reservation `[now, now+2)` in the window `[now, now+10)` leaves `now+2 .. now+9` |
| AvailabilityService.ReservationInsideWindow | src/test/java/com/upgrade/islandrsvsrv/services/AvailabilityServiceTest.java:62-84 | a reservation `[now+2, now+4)` leaves the days before it and from `now+4` on |
| AvailabilityService.BackToBackReservations | src/test/java/com/upgrade/islandrsvsrv/services/AvailabilityServiceTest.java:86-113 | reservations `[now+2, now+4)` and `[now+4, now+6)` leave `now, now+1` and `now+6 .. now+9` |
| AvailabilityService.ReservationAtWindowEnd | src/test/java/com/upgrade/islandrsvsrv/services/AvailabilityServiceTest.java:115-132 | a reservation ending with the window leaves the days before it |
| AvailabilityService.ReservationStartsBeforeWindow | src/test/java/com/upgrade/islandrsvsrv/services/AvailabilityServiceTest.java:134-153 | a reservation starting before the window is clamped to the window start |
| AvailabilityService.ReservationEndsAfterWindow | src/test/java/com/upgrade/islandrsvsrv/services/AvailabilityServiceTest.java:155-174 | a reservation ending after the window is clamped to the window end |
| AvailabilityService.ReservationCoversWindow | src/test/java/com/upgrade/islandrsvsrv/services/AvailabilityServiceTest.java:176-194 | a reservation `[now-1, now+11)` leaves no free day in `[now, now+10)` |
| AvailabilityService.ReservationOutsideWindow | src/test/java/com/upgrade/islandrsvsrv/services/AvailabilityServiceTest.java:196-215 | a reservation wholly after the window leaves the whole window free |
| ReservationDateValidation.ValidateDates | src/main/java/com/upgrade/islandrsvsrv/validation/ReservationDateValidation.java:12-23 | the four checks in source order: end before start (whatever today is), then end in the past, then start not after today, then start equal to end; success exactly when `today < start < end` |
| ReservationDateValidation.MessagesDistinct | src/main/java/com/upgrade/islandrsvsrv/validation/ReservationDateValidation.java:13-21 | the four messages are pairwise different |
| ReservationDateValidation.ValidateDatesShift | src/main/java/com/upgrade/islandrsvsrv/validation/ReservationDateValidation.java:12-23 | the outcome depends only on how start, end and today are ordered: moving all three by the same amount changes nothing |
| ReservationController.ValidateRequestDoesNotExceedThreeDays | src/main/java/com/upgrade/islandrsvsrv/controllers/ReservationController.java:58-62 | passes exactly when the period days are at most 3; otherwise fails with the three-day reason |
| ReservationController.ValidateRequest | src/main/java/com/upgrade/islandrsvsrv/controllers/ReservationController.java:27-28 | the date checks run first and their error wins; then the three-day rule; passes exactly when `today < start < end` and the period days are at most 3 |
| ReservationController.ShortRequestRule | src/main/java/com/upgrade/islandrsvsrv/controllers/ReservationController.java:58-62 | for a future request shorter than 28 days, it is refused as too long exactly when `end - start > 3` |
| ReservationController.FourNightRequestRejected | src/test/java/com/upgrade/islandrsvsrv/controllers/ReservationControllerTest.java:151-169 | the request `today+1 .. today+5` is refused as too long |
| ReservationController.BookedMessageIdentifiesRange | src/main/java/com/upgrade/islandrsvsrv/controllers/ReservationController.java:31-35 | the conflict message names the requested range: two ranges with the same message are the same range |
| ReservationController.ReservationStore.InsertReservation | src/main/java/com/upgrade/islandrsvsrv/services/ReservationService.java:27-29 | one insert call is recorded with its dates and owner; the reply is the store's answer to that call |
| ReservationController.ReservationStore.UpdateReservation | src/main/java/com/upgrade/islandrsvsrv/services/ReservationService.java:31-33 | one update call is recorded with its id and dates; the reply is the store's answer |
| ReservationController.ReservationStore.DeleteReservation | src/main/java/com/upgrade/islandrsvsrv/services/ReservationService.java:35-37 | one delete call is recorded with its id; the reply is the store's answer |
| ReservationController.ReservationController.NewReservation | src/main/java/com/upgrade/islandrsvsrv/controllers/ReservationController.java:24-37 | a refused request gets BAD_REQUEST with the first failing check's reason and the store is not called; otherwise exactly one insert with the request's fields is made, its id is returned unchanged, an integrity violation becomes BAD_REQUEST naming `start` and `end`, and any other failure escapes |
| ReservationController.ReservationController.ModifyReservation | src/main/java/com/upgrade/islandrsvsrv/controllers/ReservationController.java:39-51 | the same checks in the same order, then exactly one update of the given id, with the same conflict translation |
| ReservationController.ReservationController.DeleteReservation | src/main/java/com/upgrade/islandrsvsrv/controllers/ReservationController.java:53-56 | exactly one delete of the given id is made, and its outcome is passed on without translation |
| ReservationController.InsertReturnsStoreId | src/test/java/com/upgrade/islandrsvsrv/controllers/ReservationControllerTest.java:45-60 | with a store that answers id 1, a valid two-night request returns 1 |
| ReservationController.InsertConflictNamesRange | src/test/java/com/upgrade/islandrsvsrv/controllers/ReservationControllerTest.java:62-87 | with a store that reports an integrity violation, the answer is BAD_REQUEST naming the requested start and end |
| ReservationController.RefusedRequestsSkipStore | src/test/java/com/upgrade/islandrsvsrv/controllers/ReservationControllerTest.java:89-261 | an end before the start, a four-night request and a zero-night change are each refused with their own reason, and the store receives no call |
| DateIntervals.IntervalEquality | src/main/java/com/upgrade/islandrsvsrv/domain/DateInterval.java:7-12 | two intervals are equal iff their starts and their ends are equal |
| DateIntervals.ToText | src/main/java/com/upgrade/islandrsvsrv/domain/DateInterval.java:15-23 | the text begins with `[` and ends with `)` |
| DateIntervals.ToTextSingleComma | src/main/java/com/upgrade/islandrsvsrv/domain/DateInterval.java:18-20 | if neither date text holds a comma, the text holds exactly one comma, with the start text before it and the end text after it |
| DateIntervals.ValidCodecSingleComma | src/main/java/com/upgrade/islandrsvsrv/domain/DateInterval.java:16-22 | with valid date text, the text always holds exactly one comma |
| ReservationDAO.RemoveAll | src/main/java/com/upgrade/islandrsvsrv/repository/ReservationDAO.java:70-72 | `replace(c, "")`: `c` no longer occurs and the text does not grow |
| ReservationDAO.RemoveAllMembers | src/main/java/com/upgrade/islandrsvsrv/repository/ReservationDAO.java:70-72 | every character other than `c` occurs in the result iff it occurs in the input |
| ReservationDAO.DatePiecesOfText | src/main/java/com/upgrade/islandrsvsrv/repository/ReservationDAO.java:70-73 | the text `"[s,e)"`, with neither date text holding a delimiter and `e` non-empty, splits into exactly `[s, e]` |
| ReservationDAO.Pieces | src/main/java/com/upgrade/islandrsvsrv/repository/ReservationDAO.java:73 | the raw pieces between separators: one more piece than there are separators, none holding a separator, and joining them gives the text back |
| ReservationDAO.PiecesOfJoin | src/main/java/com/upgrade/islandrsvsrv/repository/ReservationDAO.java:73 | splitting undoes joining pieces that hold no separator |
| ReservationDAO.DropTrailingEmpty | src/main/java/com/upgrade/islandrsvsrv/repository/ReservationDAO.java:73 | the result is a prefix that does not end with an empty piece, and only empty pieces were dropped |
| ReservationDAO.Split | src/main/java/com/upgrade/islandrsvsrv/repository/ReservationDAO.java:73 | `split(",")`: a text without a comma is its own single piece; otherwise the result is the raw pieces up to the last non-empty one, with only empty pieces dropped after it; no piece holds a comma |
| ReservationDAO.DatePieces | src/main/java/com/upgrade/islandrsvsrv/repository/ReservationDAO.java:70-73 | no piece holds `[` or `)`; a text without a comma gives exactly one piece |
| ReservationDAO.ParsePeriod | src/main/java/com/upgrade/islandrsvsrv/repository/ReservationDAO.java:69-79 | succeeds exactly when there are two pieces and both parse; the start is the first piece, the end the second minus one day; no piece fails as index 0 missing, and an unpaired parsable start fails as index 1 missing |
| ReservationDAO.ParseWithoutCommaFails | src/main/java/com/upgrade/islandrsvsrv/repository/ReservationDAO.java:77 | a text without a comma never yields an interval |
| ReservationDAO.ParseToTextRoundTrip | src/main/java/com/upgrade/islandrsvsrv/repository/ReservationDAO.java:69-79 | parsing the text of `DateInterval(s, e)` gives `DateInterval(s, e - 1)` |
| ReservationDAO.ParseInclusiveRoundTrip | src/main/java/com/upgrade/islandrsvsrv/repository/ReservationDAO.java:76-77 | an inclusive interval written with its exclusive end `end + 1` is read back unchanged |

## Left out

- JDBC and PostgreSQL are not modelled: `getAvailabilities`, `insertReservation`, key retrieval, the `get_available_periods` function and the exclusion constraint. The store's answers are inputs, and no overlap check is invented in their place.
- Guarantees about concurrent bookings are not modelled. They rest wholly on the database constraint, and the application has no concurrency of its own.
- The reactive `Flux` wrapping, the Spring annotations and the bootstrap code are not modelled, and neither are the request and reservation records. The controller takes the request fields as parameters.
- `ReservationService` is not modelled beyond the store calls. It is pure delegation, and its `getAvailabilities` calls a DAO method the DAO does not define.
- The defaults of `CampsiteController` (tomorrow plus one month) and the stub `controller/CampsiteController` are not modelled. Both are glue.
- ReservationController.ValidateRequestDoesNotExceedThreeDays: `Period.between(...).getDays()` is an input and is only pinned down for spans under 28 days. For longer spans the source keeps only the day-of-month remainder, so, for example, a span of one month and one day gives 1 and passes. The model does not reproduce that calendar arithmetic.
- DateText.DecimalCodec: the `yyyy-MM-dd` text is not modelled; decimal day numbers stand in for it. The properties rely only on `ValidCodec`.
- AvailabilityService.FindAvailabilities: for unsorted or overlapping intersecting intervals, `datesUntil` would throw; the precondition excludes those inputs instead of modelling the exception.
- Exceptions are values: a failed check is a `Rejection`, and an exception that escapes the controller is `ServerError`. HTTP status codes and the exception classes are not modelled.
