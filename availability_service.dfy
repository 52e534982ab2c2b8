/**
 * The free-date calculator (`AvailabilityService.findAvailabilities`): the days of
 * a requested half-open window `[start, end)` that no occupied interval covers.
 *
 * `FindAvailabilities` is the source's cursor walk; `FreeDates` is an independent
 * declarative definition of its answer, and the lemmas below state the properties
 * of that answer.
 */
module AvailabilityService {
  import opened DateIntervals

  function Minimum(date1: int, date2: int): (r: int)
    ensures r <= date1 && r <= date2
    ensures r == date1 || r == date2
  {
    if date1 < date2 then date1 else date2
  }

  function Maximum(date1: int, date2: int): (r: int)
    ensures r >= date1 && r >= date2
    ensures r == date1 || r == date2
  {
    if date1 > date2 then date1 else date2
  }

  /** `first.datesUntil(last)`: every day from `first` up to but excluding `last`. */
  function DatesUntil(first: int, last: int): (r: seq<int>)
    requires first <= last
    ensures |r| == last - first
    ensures forall i :: 0 <= i < |r| ==> r[i] == first + i
    decreases last - first
  {
    if last == first then [] else DatesUntil(first, last - 1) + [last - 1]
  }

  /** The filter of the source: the two intervals share at least one day. */
  predicate Intersects(reservation: DateInterval, requested: DateInterval) {
    reservation.start < requested.end && requested.start < reservation.end
  }

  /** The occupied intervals that intersect the requested one, in their original order. */
  function Filter(occupied: seq<DateInterval>, requested: DateInterval): (r: seq<DateInterval>)
    ensures |r| <= |occupied|
    ensures forall x :: x in r <==> x in occupied && Intersects(x, requested)
  {
    if occupied == [] then []
    else (if Intersects(occupied[0], requested) then [occupied[0]] else []) + Filter(occupied[1..], requested)
  }

  /** Filtering a concatenation filters each part: the relative order is kept. */
  lemma {:induction false} FilterConcat(a: seq<DateInterval>, b: seq<DateInterval>, requested: DateInterval)
    ensures Filter(a + b, requested) == Filter(a, requested) + Filter(b, requested)
    decreases |a|
  {
    if a == [] {
      assert a + b == b;
    } else {
      assert (a + b)[1..] == a[1..] + b;
      FilterConcat(a[1..], b, requested);
    }
  }

  /** What `findAvailabilities` needs of the intervals it walks: non-empty, by start, not overlapping (touching is fine). */
  predicate SortedDisjoint(intervals: seq<DateInterval>) {
    && (forall i :: 0 <= i < |intervals| ==> intervals[i].start < intervals[i].end)
    && (forall i, j :: 0 <= i < j < |intervals| ==> intervals[i].end <= intervals[j].start)
  }

  predicate Covers(interval: DateInterval, day: int) {
    interval.start <= day < interval.end
  }

  /** Some interval of `occupied` holds `day`. */
  predicate Occupied(day: int, occupied: seq<DateInterval>) {
    exists i :: 0 <= i < |occupied| && Covers(occupied[i], day)
  }

  // ---------------------------------------------------------------------------
  // The specification: free days, one at a time.

  /** The days of `[lo, hi)` that no interval of `occupied` holds, in ascending order. */
  function FreeBetween(lo: int, hi: int, occupied: seq<DateInterval>): seq<int>
    decreases hi - lo
  {
    if hi <= lo then []
    else FreeBetween(lo, hi - 1, occupied) + (if Occupied(hi - 1, occupied) then [] else [hi - 1])
  }

  /** The free days of the requested window. */
  function FreeDates(requested: DateInterval, occupied: seq<DateInterval>): seq<int> {
    FreeBetween(requested.start, requested.end, occupied)
  }

  lemma {:induction false} FreeBetweenSplit(lo: int, mid: int, hi: int, occupied: seq<DateInterval>)
    requires lo <= mid <= hi
    ensures FreeBetween(lo, hi, occupied) == FreeBetween(lo, mid, occupied) + FreeBetween(mid, hi, occupied)
    decreases hi - mid
  {
    if hi > mid {
      FreeBetweenSplit(lo, mid, hi - 1, occupied);
    }
  }

  lemma {:induction false} FreeBetweenAllFree(lo: int, hi: int, occupied: seq<DateInterval>)
    requires lo <= hi
    requires forall d :: lo <= d < hi ==> !Occupied(d, occupied)
    ensures FreeBetween(lo, hi, occupied) == DatesUntil(lo, hi)
    decreases hi - lo
  {
    if hi > lo {
      FreeBetweenAllFree(lo, hi - 1, occupied);
    }
  }

  lemma {:induction false} FreeBetweenAllOccupied(lo: int, hi: int, occupied: seq<DateInterval>)
    requires forall d :: lo <= d < hi ==> Occupied(d, occupied)
    ensures FreeBetween(lo, hi, occupied) == []
    decreases hi - lo
  {
    if hi > lo {
      FreeBetweenAllOccupied(lo, hi - 1, occupied);
    }
  }

  /** Two interval lists that occupy the same days of `[lo, hi)` leave the same days free. */
  lemma {:induction false} FreeBetweenSameOccupancy(lo: int, hi: int, a: seq<DateInterval>, b: seq<DateInterval>)
    requires forall d :: lo <= d < hi ==> (Occupied(d, a) <==> Occupied(d, b))
    ensures FreeBetween(lo, hi, a) == FreeBetween(lo, hi, b)
    decreases hi - lo
  {
    if hi > lo {
      FreeBetweenSameOccupancy(lo, hi - 1, a, b);
    }
  }

  lemma {:induction false} FreeBetweenMembers(lo: int, hi: int, occupied: seq<DateInterval>)
    ensures forall d :: d in FreeBetween(lo, hi, occupied) <==> lo <= d < hi && !Occupied(d, occupied)
    decreases hi - lo
  {
    if hi > lo {
      FreeBetweenMembers(lo, hi - 1, occupied);
    }
  }

  predicate StrictlyAscending(s: seq<int>) {
    forall i, j :: 0 <= i < j < |s| ==> s[i] < s[j]
  }

  lemma {:induction false} FreeBetweenAscending(lo: int, hi: int, occupied: seq<DateInterval>)
    ensures StrictlyAscending(FreeBetween(lo, hi, occupied))
    decreases hi - lo
  {
    if hi > lo {
      FreeBetweenAscending(lo, hi - 1, occupied);
      FreeBetweenMembers(lo, hi - 1, occupied);
      var prefix := FreeBetween(lo, hi - 1, occupied);
      assert forall i :: 0 <= i < |prefix| ==> prefix[i] in prefix;
    }
  }

  // ---------------------------------------------------------------------------
  // Properties of the free days of a window.

  /** A returned day lies in the window and in no occupied interval, and every such day is returned. */
  lemma FreeDatesMembers(requested: DateInterval, occupied: seq<DateInterval>, day: int)
    ensures day in FreeDates(requested, occupied) <==>
      requested.start <= day < requested.end && forall r :: r in occupied ==> !Covers(r, day)
  {
    FreeBetweenMembers(requested.start, requested.end, occupied);
    if !Occupied(day, occupied) {
      forall r | r in occupied
        ensures !Covers(r, day)
      {
        var i :| 0 <= i < |occupied| && occupied[i] == r;
      }
    }
  }

  /** The free days come in strictly ascending order, so none is repeated. */
  lemma FreeDatesAscending(requested: DateInterval, occupied: seq<DateInterval>)
    ensures StrictlyAscending(FreeDates(requested, occupied))
  {
    FreeBetweenAscending(requested.start, requested.end, occupied);
  }

  /** Only the intervals that intersect the window matter. */
  lemma FreeDatesOfFiltered(requested: DateInterval, occupied: seq<DateInterval>)
    ensures FreeDates(requested, Filter(occupied, requested)) == FreeDates(requested, occupied)
  {
    var f := Filter(occupied, requested);
    forall d | requested.start <= d < requested.end
      ensures Occupied(d, f) <==> Occupied(d, occupied)
    {
      if Occupied(d, occupied) {
        var i :| 0 <= i < |occupied| && Covers(occupied[i], d);
        assert occupied[i] in f;
        var j :| 0 <= j < |f| && f[j] == occupied[i];
      }
      if Occupied(d, f) {
        var j :| 0 <= j < |f| && Covers(f[j], d);
        assert f[j] in occupied;
        var i :| 0 <= i < |occupied| && occupied[i] == f[j];
      }
    }
    FreeBetweenSameOccupancy(requested.start, requested.end, f, occupied);
  }

  /**
   * An interval that does not intersect the window, including one that merely
   * touches its start or its end, changes nothing.
   */
  lemma NonIntersectingIgnored(requested: DateInterval, occupied: seq<DateInterval>, other: DateInterval)
    requires !Intersects(other, requested)
    ensures FreeDates(requested, occupied + [other]) == FreeDates(requested, occupied)
  {
    FilterConcat(occupied, [other], requested);
    assert Filter([other], requested) == [];
    assert Filter(occupied + [other], requested) == Filter(occupied, requested);
    FreeDatesOfFiltered(requested, occupied + [other]);
    FreeDatesOfFiltered(requested, occupied);
  }

  /** When no interval intersects the window, every day of the window is free. */
  lemma NothingIntersectsAllFree(requested: DateInterval, occupied: seq<DateInterval>)
    requires requested.start <= requested.end
    requires Filter(occupied, requested) == []
    ensures FreeDates(requested, occupied) == DatesUntil(requested.start, requested.end)
  {
    FreeDatesOfFiltered(requested, occupied);
    FreeBetweenAllFree(requested.start, requested.end, []);
  }

  /** An interval that covers the whole window leaves nothing free. */
  lemma CoveredWindowEmpty(requested: DateInterval, occupied: seq<DateInterval>, blocker: DateInterval)
    requires blocker in occupied
    requires blocker.start <= requested.start && requested.end <= blocker.end
    ensures FreeDates(requested, occupied) == []
  {
    var i :| 0 <= i < |occupied| && occupied[i] == blocker;
    assert forall d :: requested.start <= d < requested.end ==> Covers(occupied[i], d);
    FreeBetweenAllOccupied(requested.start, requested.end, occupied);
  }

  /**
   * One intersecting reservation, clamped to the window: the days before it (from
   * the window start) and the days after it (up to the window end) are free.
   */
  lemma SingleReservationClamped(requested: DateInterval, reservation: DateInterval)
    requires requested.start <= requested.end && reservation.start < reservation.end
    requires Intersects(reservation, requested)
    ensures FreeDates(requested, [reservation]) ==
      DatesUntil(requested.start, Maximum(requested.start, reservation.start)) +
      DatesUntil(Minimum(requested.end, reservation.end), requested.end)
  {
    var lo, hi := requested.start, requested.end;
    var m, c := Maximum(lo, reservation.start), Minimum(hi, reservation.end);
    var occ := [reservation];
    FreeBetweenSplit(lo, m, hi, occ);
    FreeBetweenSplit(m, c, hi, occ);
    FreeBetweenAllFree(lo, m, occ);
    assert forall d :: m <= d < c ==> Covers(occ[0], d);
    FreeBetweenAllOccupied(m, c, occ);
    FreeBetweenAllFree(c, hi, occ);
  }

  /** Two reservations that touch (`first.end == second.start`) leave no free day between them. */
  lemma TouchingReservationsMerge(requested: DateInterval, first: DateInterval, second: DateInterval)
    requires first.start <= first.end && first.end == second.start && second.start <= second.end
    ensures FreeDates(requested, [first, second]) == FreeDates(requested, [DateInterval(first.start, second.end)])
  {
    var merged := DateInterval(first.start, second.end);
    forall d | requested.start <= d < requested.end
      ensures Occupied(d, [first, second]) <==> Occupied(d, [merged])
    {
      if Covers(merged, d) {
        if d < first.end {
          assert Covers([first, second][0], d);
        } else {
          assert Covers([first, second][1], d);
        }
      }
      assert Covers([merged][0], d) <==> Covers(merged, d);
    }
    FreeBetweenSameOccupancy(requested.start, requested.end, [first, second], [merged]);
  }

  // ---------------------------------------------------------------------------
  // The scenarios of the service's unit tests, for any current day `now` and the
  // ten-day window `[now, now + 10)`.

  lemma NoReservations(now: int)
    ensures FreeDates(DateInterval(now, now + 10), []) == DatesUntil(now, now + 10)
  {
    NothingIntersectsAllFree(DateInterval(now, now + 10), []);
  }

  lemma ReservationAtWindowStart(now: int)
    ensures FreeDates(DateInterval(now, now + 10), [DateInterval(now, now + 2)]) == DatesUntil(now + 2, now + 10)
  {
    SingleReservationClamped(DateInterval(now, now + 10), DateInterval(now, now + 2));
  }

  lemma ReservationInsideWindow(now: int)
    ensures FreeDates(DateInterval(now, now + 10), [DateInterval(now + 2, now + 4)]) ==
      DatesUntil(now, now + 2) + DatesUntil(now + 4, now + 10)
  {
    SingleReservationClamped(DateInterval(now, now + 10), DateInterval(now + 2, now + 4));
  }

  lemma BackToBackReservations(now: int)
    ensures FreeDates(DateInterval(now, now + 10), [DateInterval(now + 2, now + 4), DateInterval(now + 4, now + 6)]) ==
      DatesUntil(now, now + 2) + DatesUntil(now + 4, now + 4) + DatesUntil(now + 6, now + 10)
  {
    var w := DateInterval(now, now + 10);
    TouchingReservationsMerge(w, DateInterval(now + 2, now + 4), DateInterval(now + 4, now + 6));
    SingleReservationClamped(w, DateInterval(now + 2, now + 6));
    assert DatesUntil(now + 4, now + 4) == [];
  }

  lemma ReservationAtWindowEnd(now: int)
    ensures FreeDates(DateInterval(now, now + 10), [DateInterval(now + 8, now + 10)]) == DatesUntil(now, now + 8)
  {
    SingleReservationClamped(DateInterval(now, now + 10), DateInterval(now + 8, now + 10));
  }

  lemma ReservationStartsBeforeWindow(now: int)
    ensures FreeDates(DateInterval(now, now + 10), [DateInterval(now - 1, now + 3)]) == DatesUntil(now + 3, now + 10)
  {
    SingleReservationClamped(DateInterval(now, now + 10), DateInterval(now - 1, now + 3));
  }

  lemma ReservationEndsAfterWindow(now: int)
    ensures FreeDates(DateInterval(now, now + 10), [DateInterval(now + 8, now + 11)]) == DatesUntil(now, now + 8)
  {
    SingleReservationClamped(DateInterval(now, now + 10), DateInterval(now + 8, now + 11));
  }

  lemma ReservationCoversWindow(now: int)
    ensures FreeDates(DateInterval(now, now + 10), [DateInterval(now - 1, now + 11)]) == []
  {
    CoveredWindowEmpty(DateInterval(now, now + 10), [DateInterval(now - 1, now + 11)], DateInterval(now - 1, now + 11));
  }

  lemma ReservationOutsideWindow(now: int)
    ensures FreeDates(DateInterval(now, now + 10), [DateInterval(now + 20, now + 33)]) == DatesUntil(now, now + 10)
  {
    var w := DateInterval(now, now + 10);
    assert Filter([DateInterval(now + 20, now + 33)], w) == [];
    NothingIntersectsAllFree(w, [DateInterval(now + 20, now + 33)]);
  }

  // ---------------------------------------------------------------------------
  // The algorithm of the source.

  /** No interval before position `k` reaches past the cursor, and none from `k` on starts before it. */
  ghost predicate CursorReady(requested: DateInterval, filtered: seq<DateInterval>, k: int, cursor: int) {
    && 0 <= k <= |filtered|
    && requested.start <= cursor <= requested.end
    && (forall j :: 0 <= j < k ==> Minimum(requested.end, filtered[j].end) <= cursor)
    && (forall j :: k <= j < |filtered| ==> cursor <= Maximum(requested.start, filtered[j].start))
  }

  /** The days from the cursor up to the next (clamped) reservation start are free. */
  lemma GapBeforeReservationFree(requested: DateInterval, filtered: seq<DateInterval>, k: int, cursor: int)
    requires SortedDisjoint(filtered) && forall x :: x in filtered ==> Intersects(x, requested)
    requires CursorReady(requested, filtered, k, cursor) && k < |filtered|
    ensures var m := Maximum(requested.start, filtered[k].start);
      cursor <= m && FreeBetween(cursor, m, filtered) == DatesUntil(cursor, m)
  {
    var m := Maximum(requested.start, filtered[k].start);
    assert filtered[k] in filtered;
    forall d | cursor <= d < m
      ensures !Occupied(d, filtered)
    {
      forall j | 0 <= j < |filtered|
        ensures !Covers(filtered[j], d)
      {
        if j > k {
          assert filtered[k].end <= filtered[j].start;
        }
      }
    }
    FreeBetweenAllFree(cursor, m, filtered);
  }

  /** The days taken by reservation `k` inside the window are not free, and the cursor moves past them. */
  lemma ReservationDaysTaken(requested: DateInterval, filtered: seq<DateInterval>, k: int, cursor: int)
    requires SortedDisjoint(filtered) && forall x :: x in filtered ==> Intersects(x, requested)
    requires CursorReady(requested, filtered, k, cursor) && k < |filtered|
    ensures var m := Maximum(requested.start, filtered[k].start);
      var next := Minimum(requested.end, filtered[k].end);
      && m <= next
      && FreeBetween(m, next, filtered) == []
      && CursorReady(requested, filtered, k + 1, next)
  {
    var r := filtered[k];
    assert r in filtered;
    var m := Maximum(requested.start, r.start);
    var next := Minimum(requested.end, r.end);
    assert forall d :: m <= d < next ==> Covers(filtered[k], d);
    FreeBetweenAllOccupied(m, next, filtered);
    forall j | 0 <= j < k
      ensures Minimum(requested.end, filtered[j].end) <= next
    {
      assert filtered[j].end <= r.start;
    }
    forall j | k + 1 <= j < |filtered|
      ensures next <= Maximum(requested.start, filtered[j].start)
    {
      assert r.end <= filtered[j].start;
    }
  }

  /** After the last reservation, the days from the cursor to the window end are free. */
  lemma LastStretchFree(requested: DateInterval, filtered: seq<DateInterval>, cursor: int)
    requires CursorReady(requested, filtered, |filtered|, cursor)
    ensures FreeBetween(cursor, requested.end, filtered) == DatesUntil(cursor, requested.end)
  {
    forall d | cursor <= d < requested.end
      ensures !Occupied(d, filtered)
    {
      forall j | 0 <= j < |filtered|
        ensures !Covers(filtered[j], d)
      {
        assert Minimum(requested.end, filtered[j].end) <= cursor;
      }
    }
    FreeBetweenAllFree(cursor, requested.end, filtered);
  }

  /**
   * `findAvailabilities`. The intervals that intersect the window must be
   * well formed, sorted by start and non-overlapping: the source does not sort
   * them, and `datesUntil` would throw on a cursor that has passed the next start.
   */
  method FindAvailabilities(requestedInterval: DateInterval, sortedOccupiedIntervals: seq<DateInterval>)
    returns (availableDates: seq<int>)
    requires requestedInterval.start <= requestedInterval.end
    requires SortedDisjoint(Filter(sortedOccupiedIntervals, requestedInterval))
    ensures availableDates == FreeDates(requestedInterval, sortedOccupiedIntervals)
  {
    var currentStart := requestedInterval.start;
    availableDates := [];

    var filteredReservations := Filter(sortedOccupiedIntervals, requestedInterval);

    if filteredReservations == [] {
      NothingIntersectsAllFree(requestedInterval, sortedOccupiedIntervals);
      return DatesUntil(requestedInterval.start, requestedInterval.end);
    }

    for k := 0 to |filteredReservations|
      invariant CursorReady(requestedInterval, filteredReservations, k, currentStart)
      invariant availableDates == FreeBetween(requestedInterval.start, currentStart, filteredReservations)
    {
      var reservationDate := filteredReservations[k];
      GapBeforeReservationFree(requestedInterval, filteredReservations, k, currentStart);
      ReservationDaysTaken(requestedInterval, filteredReservations, k, currentStart);
      var next := Maximum(requestedInterval.start, reservationDate.start);
      availableDates := availableDates + DatesUntil(currentStart, next);
      FreeBetweenSplit(requestedInterval.start, currentStart, next, filteredReservations);
      var after := Minimum(requestedInterval.end, reservationDate.end);
      FreeBetweenSplit(requestedInterval.start, next, after, filteredReservations);
      currentStart := after;
    }

    // the last stretch, from the end of the last reservation to the end of the window
    LastStretchFree(requestedInterval, filteredReservations, currentStart);
    FreeBetweenSplit(requestedInterval.start, currentStart, requestedInterval.end, filteredReservations);
    availableDates := availableDates + DatesUntil(currentStart, requestedInterval.end);
    FreeDatesOfFiltered(requestedInterval, sortedOccupiedIntervals);
  }
}
