/**
 * `ReservationDateValidation.validateDates`: an ordered chain of four checks on a
 * requested start and end day; the first check that fails decides the error. The
 * current day (`now()` in the source) is an explicit parameter `today`.
 */
module ReservationDateValidation {
  import opened Wrappers

  /** The four BAD_REQUEST reasons, in the order they are checked. */
  datatype DateError = EndBeforeStart | EndInPast | StartNotInFuture | SameDay

  function Message(error: DateError): string {
    match error
    case EndBeforeStart => "The end date cannot be before the start date."
    case EndInPast => "The end date cannot be in the past."
    case StartNotInFuture => "The start date must be in the future."
    case SameDay => "The start and end date must differ by at least 1 day."
  }

  function ValidateDates(start: int, end: int, today: int): (r: Outcome<DateError>)
    // an end before the start is reported whatever the current day is
    ensures end < start ==> r == Fail(EndBeforeStart)
    ensures start <= end && end < today ==> r == Fail(EndInPast)
    ensures start <= end && today <= end && start <= today ==> r == Fail(StartNotInFuture)
    ensures today < start && start == end ==> r == Fail(SameDay)
    // the only accepted requests start after today and end after they start
    ensures r == Pass <==> today < start < end
  {
    if end < start then Fail(EndBeforeStart)
    else if end < today then Fail(EndInPast)
    else if !(start > today) then Fail(StartNotInFuture)
    else if start == end then Fail(SameDay)
    else Pass
  }

  /** The four messages are distinct, so the message identifies the failed check. */
  lemma MessagesDistinct(a: DateError, b: DateError)
    ensures Message(a) == Message(b) ==> a == b
  {
  }

  /** Only the relative order of the three days matters: moving them all by `shift` changes nothing. */
  lemma ValidateDatesShift(start: int, end: int, today: int, shift: int)
    ensures ValidateDates(start + shift, end + shift, today + shift) == ValidateDates(start, end, today)
  {
  }
}
