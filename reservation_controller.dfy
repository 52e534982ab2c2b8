/**
 * The booking endpoints of `ReservationController`: validate the dates, then the
 * three-day rule, then make one call to the store; a store integrity violation
 * (the database refusing an overlapping range) becomes a BAD_REQUEST that names
 * the requested range.
 *
 * The store (`ReservationService` and the database behind it) is modelled as a
 * recorder of the calls it receives; what it answers is supplied from outside,
 * because the overlap rule lives in the database and not in this code.
 */
module ReservationController {
  import opened Wrappers
  import opened DateText
  import opened ReservationDateValidation

  /** `Period.between(start, end).getDays()`, which the calendar supplies. */
  type PeriodDays = (int, int) -> int

  /**
   * What the calendar guarantees of `getDays()` for spans below 28 days: a month
   * is at least 28 days long, so such a span has no whole month and its day
   * component is the span itself. Longer spans are left to the calendar.
   */
  ghost predicate ExactForShortSpans(periodDays: PeriodDays) {
    forall start: int, end: int :: 0 <= end - start < 28 ==> periodDays(start, end) == end - start
  }

  /** The longest stay, in period days, that a request may ask for. */
  const MaxStayDays := 3

  /** Why the controller answered BAD_REQUEST. */
  datatype Rejection =
    | InvalidDates(error: DateError)
    | TooLong
    | Booked(start: int, end: int)

  const BookedPrefix := "Sorry it looks like the island is booked somewhere between "
  const BookedMiddle := " and "
  const BookedSuffix := ". Please try another time slot."

  /** The message of the BAD_REQUEST, with dates written by `codec` as `LocalDate.toString` does. */
  function RejectionMessage(codec: DateCodec, rejection: Rejection): string {
    match rejection
    case InvalidDates(error) => Message(error)
    case TooLong => "Reservation can only be for 3 days at a time."
    case Booked(start, end) => BookedPrefix + codec.format(start) + BookedMiddle + codec.format(end) + BookedSuffix
  }

  /** `validateRequestDoesNotExceedThreeDays`. */
  function ValidateRequestDoesNotExceedThreeDays(start: int, end: int, periodDays: PeriodDays): (r: Outcome<Rejection>)
    ensures r == Pass <==> periodDays(start, end) <= MaxStayDays
    ensures r.Fail? ==> r.error == TooLong
  {
    if periodDays(start, end) > MaxStayDays then Fail(TooLong) else Pass
  }

  /** Both checks of a request, in the order the controller makes them. */
  function ValidateRequest(start: int, end: int, today: int, periodDays: PeriodDays): (r: Outcome<Rejection>)
    // the date checks come first and their error wins
    ensures ValidateDates(start, end, today).Fail? ==> r == Fail(InvalidDates(ValidateDates(start, end, today).error))
    ensures ValidateDates(start, end, today) == Pass ==> r == ValidateRequestDoesNotExceedThreeDays(start, end, periodDays)
    ensures r == Pass <==> today < start < end && periodDays(start, end) <= MaxStayDays
  {
    match ValidateDates(start, end, today)
    case Fail(error) => Fail(InvalidDates(error))
    case Pass => ValidateRequestDoesNotExceedThreeDays(start, end, periodDays)
  }

  /** For well-formed future requests shorter than four weeks, the three-day rule is `end - start <= 3`. */
  lemma ShortRequestRule(start: int, end: int, today: int, periodDays: PeriodDays)
    requires ExactForShortSpans(periodDays)
    requires today < start < end && end - start < 28
    ensures ValidateRequest(start, end, today, periodDays) == Pass <==> end - start <= MaxStayDays
    ensures ValidateRequest(start, end, today, periodDays) == Fail(TooLong) <==> end - start > MaxStayDays
  {
    assert periodDays(start, end) == end - start;
  }

  /** The request from tomorrow to five days from now is refused as too long. */
  lemma FourNightRequestRejected(today: int, periodDays: PeriodDays)
    requires ExactForShortSpans(periodDays)
    ensures ValidateRequest(today + 1, today + 5, today, periodDays) == Fail(TooLong)
  {
    ShortRequestRule(today + 1, today + 5, today, periodDays);
  }

  lemma {:induction false} SpaceFreeHead(a1: string, b1: string, a2: string, b2: string)
    requires ' ' !in a1 && ' ' !in a2
    requires |b1| > 0 && b1[0] == ' ' && |b2| > 0 && b2[0] == ' '
    requires a1 + b1 == a2 + b2
    ensures a1 == a2 && b1 == b2
  {
    assert a1 == (a1 + b1)[..|a1|];
    assert a2 == (a2 + b2)[..|a2|];
    assert b1 == (a1 + b1)[|a1|..];
    assert b2 == (a2 + b2)[|a2|..];
  }

  /** The conflict message names the requested range: two different ranges never give the same message. */
  lemma BookedMessageIdentifiesRange(codec: DateCodec, start1: int, end1: int, start2: int, end2: int)
    requires ValidCodec(codec)
    requires RejectionMessage(codec, Booked(start1, end1)) == RejectionMessage(codec, Booked(start2, end2))
    ensures start1 == start2 && end1 == end2
  {
    var s1, e1, s2, e2 := codec.format(start1), codec.format(end1), codec.format(start2), codec.format(end2);
    ValidCodecFacts(codec, start1);
    ValidCodecFacts(codec, end1);
    ValidCodecFacts(codec, start2);
    ValidCodecFacts(codec, end2);
    var t1, t2 := BookedMiddle + (e1 + BookedSuffix), BookedMiddle + (e2 + BookedSuffix);
    BookedMessageShape(s1, e1);
    BookedMessageShape(s2, e2);
    PrefixCancel(BookedPrefix, s1 + t1, s2 + t2);
    SpaceFreeHead(s1, t1, s2, t2);
    PrefixCancel(BookedMiddle, e1 + BookedSuffix, e2 + BookedSuffix);
    SuffixCancel(e1, e2, BookedSuffix);
  }

  /** The conflict message regrouped around the start text. */
  lemma BookedMessageShape(s: string, e: string)
    ensures BookedPrefix + s + BookedMiddle + e + BookedSuffix == BookedPrefix + (s + (BookedMiddle + (e + BookedSuffix)))
  {
  }

  lemma PrefixCancel(p: string, x: string, y: string)
    requires p + x == p + y
    ensures x == y
  {
    assert x == (p + x)[|p|..];
    assert y == (p + y)[|p|..];
  }

  lemma SuffixCancel(x: string, y: string, q: string)
    requires x + q == y + q
    ensures x == y
  {
    assert x == (x + q)[..|x|];
    assert y == (y + q)[..|y|];
  }

  // ---------------------------------------------------------------------------
  // The store

  /** A call the controller makes on the store. */
  datatype StoreCall =
    | InsertCall(start: int, end: int, userName: string, userEmail: string)
    | UpdateCall(id: int, start: int, end: int)
    | DeleteCall(id: int)

  /** How a store call ends: normally with a value, with an integrity violation, or with another exception. */
  datatype StoreReply<T> = Done(value: T) | IntegrityViolation | StoreFailure

  /**
   * The store behind `reservationService`. It records every call; its answer to
   * the n-th call is given by the answer functions, whatever the database decides.
   */
  class ReservationStore {
    const insertAnswer: nat -> StoreReply<int>
    const updateAnswer: nat -> StoreReply<()>
    const deleteAnswer: nat -> StoreReply<()>
    var calls: seq<StoreCall>

    constructor(insertAnswer: nat -> StoreReply<int>, updateAnswer: nat -> StoreReply<()>,
                deleteAnswer: nat -> StoreReply<()>)
      ensures this.insertAnswer == insertAnswer && this.updateAnswer == updateAnswer
      ensures this.deleteAnswer == deleteAnswer
      ensures calls == []
    {
      this.insertAnswer := insertAnswer;
      this.updateAnswer := updateAnswer;
      this.deleteAnswer := deleteAnswer;
      calls := [];
    }

    function CallCount(): nat
      reads this
    {
      |calls|
    }

    method InsertReservation(start: int, end: int, userName: string, userEmail: string)
      returns (reply: StoreReply<int>)
      modifies this
      ensures calls == old(calls) + [InsertCall(start, end, userName, userEmail)]
      ensures reply == insertAnswer(|old(calls)|)
    {
      reply := insertAnswer(|calls|);
      calls := calls + [InsertCall(start, end, userName, userEmail)];
    }

    method UpdateReservation(id: int, start: int, end: int) returns (reply: StoreReply<()>)
      modifies this
      ensures calls == old(calls) + [UpdateCall(id, start, end)]
      ensures reply == updateAnswer(|old(calls)|)
    {
      reply := updateAnswer(|calls|);
      calls := calls + [UpdateCall(id, start, end)];
    }

    method DeleteReservation(id: int) returns (reply: StoreReply<()>)
      modifies this
      ensures calls == old(calls) + [DeleteCall(id)]
      ensures reply == deleteAnswer(|old(calls)|)
    {
      reply := deleteAnswer(|calls|);
      calls := calls + [DeleteCall(id)];
    }
  }

  // ---------------------------------------------------------------------------
  // The controller

  /** What the endpoint answers: a value, BAD_REQUEST with its reason, or an exception that escapes. */
  datatype Response<T> = Ok(value: T) | BadRequest(reason: Rejection) | ServerError

  /** The `catch (DataIntegrityViolationException e)` around a store write. */
  function CatchIntegrityViolation<T>(reply: StoreReply<T>, start: int, end: int): Response<T> {
    match reply
    case Done(v) => Ok(v)
    case IntegrityViolation => BadRequest(Booked(start, end))
    case StoreFailure => ServerError
  }

  /** A store call made without any `catch`: every exception escapes. */
  function Uncaught<T>(reply: StoreReply<T>): Response<T> {
    match reply
    case Done(v) => Ok(v)
    case IntegrityViolation => ServerError
    case StoreFailure => ServerError
  }

  class ReservationController {
    const reservationService: ReservationStore
    const periodDays: PeriodDays

    constructor(reservationService: ReservationStore, periodDays: PeriodDays)
      ensures this.reservationService == reservationService && this.periodDays == periodDays
    {
      this.reservationService := reservationService;
      this.periodDays := periodDays;
    }

    /** `newReservation`: on a refused request the store is not called at all. */
    method NewReservation(start: int, end: int, userName: string, userEmail: string, today: int)
      returns (response: Response<int>)
      modifies reservationService
      ensures ValidateRequest(start, end, today, periodDays).Fail? ==>
        && response == BadRequest(ValidateRequest(start, end, today, periodDays).error)
        && reservationService.calls == old(reservationService.calls)
      ensures ValidateRequest(start, end, today, periodDays) == Pass ==>
        && reservationService.calls == old(reservationService.calls) + [InsertCall(start, end, userName, userEmail)]
        && response == CatchIntegrityViolation(reservationService.insertAnswer(|old(reservationService.calls)|), start, end)
    {
      var dates := ValidateDates(start, end, today);
      if dates.Fail? {
        return BadRequest(InvalidDates(dates.error));
      }
      var span := ValidateRequestDoesNotExceedThreeDays(start, end, periodDays);
      if span.Fail? {
        return BadRequest(span.error);
      }
      var reply := reservationService.InsertReservation(start, end, userName, userEmail);
      response := CatchIntegrityViolation(reply, start, end);
    }

    /** `modifyReservation`, with the reservation's id passed explicitly: the same checks, then one update. */
    method ModifyReservation(reservationId: int, start: int, end: int, today: int)
      returns (response: Response<()>)
      modifies reservationService
      ensures ValidateRequest(start, end, today, periodDays).Fail? ==>
        && response == BadRequest(ValidateRequest(start, end, today, periodDays).error)
        && reservationService.calls == old(reservationService.calls)
      ensures ValidateRequest(start, end, today, periodDays) == Pass ==>
        && reservationService.calls == old(reservationService.calls) + [UpdateCall(reservationId, start, end)]
        && response == CatchIntegrityViolation(reservationService.updateAnswer(|old(reservationService.calls)|), start, end)
    {
      var dates := ValidateDates(start, end, today);
      if dates.Fail? {
        return BadRequest(InvalidDates(dates.error));
      }
      var span := ValidateRequestDoesNotExceedThreeDays(start, end, periodDays);
      if span.Fail? {
        return BadRequest(span.error);
      }
      var reply := reservationService.UpdateReservation(reservationId, start, end);
      response := CatchIntegrityViolation(reply, start, end);
    }

    /** `deleteReservation`: the id goes to the store unchanged, and nothing else happens. */
    method DeleteReservation(reservationId: int) returns (response: Response<()>)
      modifies reservationService
      ensures reservationService.calls == old(reservationService.calls) + [DeleteCall(reservationId)]
      ensures response == Uncaught(reservationService.deleteAnswer(|old(reservationService.calls)|))
    {
      var reply := reservationService.DeleteReservation(reservationId);
      response := Uncaught(reply);
    }
  }

  // ---------------------------------------------------------------------------
  // The controller's unit tests, with a store that answers as their mock does.

  /** A valid two-night request gets the id the store assigned. */
  method InsertReturnsStoreId(today: int, periodDays: PeriodDays) returns (response: Response<int>)
    requires ExactForShortSpans(periodDays)
    ensures response == Ok(1)
  {
    var store := new ReservationStore(n => Done(1), n => Done(()), n => Done(()));
    var controller := new ReservationController(store, periodDays);
    ShortRequestRule(today + 1, today + 3, today, periodDays);
    response := controller.NewReservation(today + 1, today + 3, "userName", "email", today);
  }

  /** An integrity violation becomes a BAD_REQUEST naming the requested range. */
  method InsertConflictNamesRange(today: int, periodDays: PeriodDays) returns (response: Response<int>)
    requires ExactForShortSpans(periodDays)
    ensures response == BadRequest(Booked(today + 1, today + 3))
  {
    var store := new ReservationStore(n => IntegrityViolation, n => Done(()), n => Done(()));
    var controller := new ReservationController(store, periodDays);
    ShortRequestRule(today + 1, today + 3, today, periodDays);
    response := controller.NewReservation(today + 1, today + 3, "userName", "email", today);
  }

  /** Refused requests never reach the store: end before start, too long, and a zero-night change. */
  method RefusedRequestsSkipStore(today: int, periodDays: PeriodDays)
    returns (backwards: Response<int>, tooLong: Response<int>, sameDay: Response<()>, storeCalls: nat)
    requires ExactForShortSpans(periodDays)
    ensures backwards == BadRequest(InvalidDates(EndBeforeStart))
    ensures tooLong == BadRequest(TooLong)
    ensures sameDay == BadRequest(InvalidDates(SameDay))
    ensures storeCalls == 0
  {
    var store := new ReservationStore(n => Done(1), n => Done(()), n => Done(()));
    var controller := new ReservationController(store, periodDays);
    backwards := controller.NewReservation(today + 2, today + 1, "userName", "email", today);
    FourNightRequestRejected(today, periodDays);
    tooLong := controller.NewReservation(today + 1, today + 5, "userName", "email", today);
    sameDay := controller.ModifyReservation(1, today + 1, today + 1, today);
    storeCalls := store.CallCount();
  }
}
