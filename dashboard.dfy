/**
 * Today's agenda on the dashboard. The day's appointments are split into those at or after
 * the current minute ("upcoming") and those before it ("past"); each part is sorted by time
 * with a stable sort and the upcoming part comes first. Unless the list is expanded only the
 * first five are shown, and an item is flagged "next" when it is not past and is either the
 * first shown or follows a past one.
 *
 * The current minute `now` is a parameter: the page reads the clock.
 */
module Dashboard {
  import opened Wrappers
  import opened Seqs
  import opened JsText

  /** One row of today's agenda; `time` is the "HH:MM" text the page holds. */
  datatype Appointment = Appointment(id: int, time: string, customer: string, service: string, value: string)

  /** How many items the collapsed agenda shows. */
  const CollapsedCount: nat := 5

  // ---------------------------------------------------------------- minutes since midnight

  /**
   * `getMinutes`: the text before the first ':' read as hours and the text after it (up to a
   * second ':') as minutes, both with `Number()`; hours * 60 + minutes. A part that is not a
   * number, or a missing minutes part, makes the result NaN (`None`).
   */
  function GetMinutes(time: string): (r: Option<int>)
    ensures ':' !in time ==> r == None
    ensures r.Some? ==> r.value >= 0
  {
    var parts := Split(time, ':');
    SplitCount(time, ':');
    var hours := NumberOf(parts[0]);
    var minutes := if |parts| >= 2 then NumberOf(parts[1]) else None;
    if hours.Some? && minutes.Some? then Some(hours.value * 60 + minutes.value) else None
  }

  /** A time written as digits, a ':' and digits is worth hours * 60 + minutes. */
  lemma GetMinutesOfDigits(hh: string, mm: string)
    requires AllDigits(hh) && AllDigits(mm)
    ensures GetMinutes(hh + ":" + mm) == Some(DecimalValue(hh) * 60 + DecimalValue(mm))
  {
    var parts := [hh, mm];
    assert ':' !in hh && ':' !in mm by {
      assert forall i :: 0 <= i < |hh| ==> hh[i] != ':';
      assert forall i :: 0 <= i < |mm| ==> mm[i] != ':';
    }
    assert Join(parts, ':') == hh + ":" + mm by {
      assert Join(parts[1..], ':') == mm;
    }
    SplitOfJoin(parts, ':');
    GetMinutesOfParts(hh + ":" + mm, hh, mm);
  }

  lemma GetMinutesOfParts(time: string, hh: string, mm: string)
    requires AllDigits(hh) && AllDigits(mm)
    requires Split(time, ':') == [hh, mm]
    ensures GetMinutes(time) == Some(DecimalValue(hh) * 60 + DecimalValue(mm))
  {
  }

  /** Every clock time "HH:MM" of a day is its number of minutes since midnight. */
  lemma GetMinutesOfClock(h: nat, m: nat)
    requires h < 24 && m < 60
    ensures GetMinutes(TwoDigits(h) + ":" + TwoDigits(m)) == Some(h * 60 + m)
  {
    GetMinutesOfDigits(TwoDigits(h), TwoDigits(m));
    TwoDigitsValue(h);
    TwoDigitsValue(m);
  }

  /** The filter of the upcoming part: `getMinutes(time) >= now` (false for NaN). */
  predicate IsUpcoming(a: Appointment, now: int) {
    var t := GetMinutes(a.time);
    t.Some? && t.value >= now
  }

  /** `isTimePast`, and the filter of the past part: `getMinutes(time) < now` (false for NaN). */
  predicate IsPast(a: Appointment, now: int)
    ensures IsPast(a, now) <==> GetMinutes(a.time).Some? && !IsUpcoming(a, now)
  {
    var t := GetMinutes(a.time);
    t.Some? && t.value < now
  }

  /** A row at clock time "HH:MM" is past exactly when that minute is before `now`, else upcoming. */
  lemma ClockTimeIsPast(a: Appointment, h: nat, m: nat, now: int)
    requires h < 24 && m < 60 && a.time == TwoDigits(h) + ":" + TwoDigits(m)
    ensures IsPast(a, now) <==> h * 60 + m < now
    ensures IsUpcoming(a, now) <==> !IsPast(a, now)
  {
    GetMinutesOfClock(h, m);
  }

  function UpcomingTest(now: int): Appointment -> bool {
    (a: Appointment) => IsUpcoming(a, now)
  }

  function PastTest(now: int): Appointment -> bool {
    (a: Appointment) => IsPast(a, now)
  }

  function Upcoming(xs: seq<Appointment>, now: int): seq<Appointment> {
    Filter(UpcomingTest(now), xs)
  }

  function PastItems(xs: seq<Appointment>, now: int): seq<Appointment> {
    Filter(PastTest(now), xs)
  }

  // ---------------------------------------------------------------- stable sort by time

  /** The sort key; only items whose time parses are ever sorted. */
  function SortKey(a: Appointment): int {
    GetMinutes(a.time).GetOr(0)
  }

  /** Items whose time is minute `m`. */
  function AtMinute(m: int): Appointment -> bool {
    (a: Appointment) => GetMinutes(a.time) == Some(m)
  }

  // ---------------------------------------------------------------- the agenda order

  /**
   * `sortedAppointments`: the upcoming part, then the past part, each sorted by
   * `(a, b) => getMinutes(a.time) - getMinutes(b.time)` with the stable `Array.prototype.sort`.
   */
  function Order(xs: seq<Appointment>, now: int): seq<Appointment> {
    PartitionSort(UpcomingTest(now), PastTest(now), SortKey, xs)
  }

  predicate AllTimesParse(xs: seq<Appointment>) {
    forall i :: 0 <= i < |xs| ==> GetMinutes(xs[i].time).Some?
  }

  /**
   * Every occurrence of an item whose time parses is kept, and nothing else appears: an item
   * whose time is NaN fails both filters.
   */
  lemma OrderKeepsParsed(xs: seq<Appointment>, now: int, a: Appointment)
    ensures multiset(Order(xs, now))[a] == if GetMinutes(a.time).Some? then multiset(xs)[a] else 0
  {
    PartitionSortMultiset(UpcomingTest(now), PastTest(now), SortKey, xs, a);
  }

  /** With well-formed times the order is a permutation: nothing dropped or duplicated. */
  lemma OrderIsPermutation(xs: seq<Appointment>, now: int)
    requires AllTimesParse(xs)
    ensures multiset(Order(xs, now)) == multiset(xs)
    ensures |Order(xs, now)| == |xs|
  {
    forall i | 0 <= i < |xs| ensures UpcomingTest(now)(xs[i]) != PastTest(now)(xs[i]) {
      assert GetMinutes(xs[i].time).Some?;
    }
    PartitionSortPermutes(UpcomingTest(now), PastTest(now), SortKey, xs);
    assert |multiset(Order(xs, now))| == |multiset(xs)|;
  }

  /** An item whose time does not parse never appears in the agenda. */
  lemma UnparsedTimeIsDropped(xs: seq<Appointment>, now: int, a: Appointment)
    requires GetMinutes(a.time).None?
    ensures a !in Order(xs, now)
  {
    OrderKeepsParsed(xs, now, a);
    assert a in Order(xs, now) ==> multiset(Order(xs, now))[a] > 0;
  }

  /** The first |Upcoming| items are the upcoming ones and the rest are the past ones. */
  lemma OrderPartition(xs: seq<Appointment>, now: int)
    ensures |Upcoming(xs, now)| <= |Order(xs, now)|
    ensures forall i :: 0 <= i < |Upcoming(xs, now)| ==> IsUpcoming(Order(xs, now)[i], now)
    ensures forall i :: |Upcoming(xs, now)| <= i < |Order(xs, now)| ==> IsPast(Order(xs, now)[i], now)
  {
    PartitionSortSegments(UpcomingTest(now), PastTest(now), SortKey, xs);
  }

  /** Every upcoming item appears before every past item. */
  lemma UpcomingBeforePast(xs: seq<Appointment>, now: int)
    ensures forall i, j ::
              (0 <= i < |Order(xs, now)| && 0 <= j < |Order(xs, now)|
               && IsUpcoming(Order(xs, now)[i], now) && IsPast(Order(xs, now)[j], now)) ==> i < j
  {
    OrderPartition(xs, now);
  }

  /** Within the upcoming part and within the past part, times never decrease. */
  lemma OrderSegmentsSorted(xs: seq<Appointment>, now: int)
    ensures |Upcoming(xs, now)| <= |Order(xs, now)|
    ensures SortedBy(SortKey, Order(xs, now)[..|Upcoming(xs, now)|])
    ensures SortedBy(SortKey, Order(xs, now)[|Upcoming(xs, now)|..])
  {
    PartitionSortSorted(UpcomingTest(now), PastTest(now), SortKey, xs);
  }

  /** On items whose time parses, "at minute m" and "sort key m" agree. */
  lemma AtMinuteIsKey(s: seq<Appointment>, m: int)
    requires AllTimesParse(s)
    ensures Filter(AtMinute(m), s) == Filter(HasKey(SortKey, m), s)
  {
    forall i | 0 <= i < |s| ensures AtMinute(m)(s[i]) == HasKey(SortKey, m)(s[i]) {
      var t := GetMinutes(s[i].time);
      assert t.Some? && SortKey(s[i]) == t.value;
      assert AtMinute(m)(s[i]) == (t == Some(m));
      assert HasKey(SortKey, m)(s[i]) == (SortKey(s[i]) == m);
    }
    FilterCongruent(AtMinute(m), HasKey(SortKey, m), s);
  }

  lemma OrderedTimesParse(xs: seq<Appointment>, now: int)
    ensures AllTimesParse(Order(xs, now))
    ensures AllTimesParse(Upcoming(xs, now)) && AllTimesParse(PastItems(xs, now))
  {
    OrderPartition(xs, now);
  }

  /** The agenda's items at minute `m`: those of the upcoming part, then those of the past part. */
  lemma OrderAtMinute(xs: seq<Appointment>, now: int, m: int)
    ensures Filter(AtMinute(m), Order(xs, now))
         == Filter(AtMinute(m), Upcoming(xs, now)) + Filter(AtMinute(m), PastItems(xs, now))
  {
    OrderedTimesParse(xs, now);
    AtMinuteIsKey(Order(xs, now), m);
    PartitionSortStable(UpcomingTest(now), PastTest(now), SortKey, xs, m);
    AtMinuteIsKey(Upcoming(xs, now), m);
    AtMinuteIsKey(PastItems(xs, now), m);
  }

  /** A minute at or after `now` only has upcoming items. */
  lemma UpcomingAtMinute(xs: seq<Appointment>, now: int, m: int)
    requires m >= now
    ensures Filter(AtMinute(m), Upcoming(xs, now)) == Filter(AtMinute(m), xs)
    ensures Filter(AtMinute(m), PastItems(xs, now)) == []
  {
    FilterOfFilter(UpcomingTest(now), AtMinute(m), xs);
    FilterKeepsNone(AtMinute(m), PastItems(xs, now));
  }

  /** A minute before `now` only has past items. */
  lemma PastAtMinute(xs: seq<Appointment>, now: int, m: int)
    requires m < now
    ensures Filter(AtMinute(m), PastItems(xs, now)) == Filter(AtMinute(m), xs)
    ensures Filter(AtMinute(m), Upcoming(xs, now)) == []
  {
    FilterOfFilter(PastTest(now), AtMinute(m), xs);
    FilterKeepsNone(AtMinute(m), Upcoming(xs, now));
  }

  /**
   * Ties keep their input order: for every minute, the items at that minute appear in the
   * agenda in the same relative order as in the input.
   */
  lemma OrderIsStable(xs: seq<Appointment>, now: int, m: int)
    ensures Filter(AtMinute(m), Order(xs, now)) == Filter(AtMinute(m), xs)
  {
    OrderAtMinute(xs, now, m);
    var u, p := Filter(AtMinute(m), Upcoming(xs, now)), Filter(AtMinute(m), PastItems(xs, now));
    if m >= now {
      UpcomingAtMinute(xs, now, m);
      assert u + p == u + [] == u;
    } else {
      PastAtMinute(xs, now, m);
      assert u + p == [] + p == p;
    }
  }

  /** Re-ordering the agenda with the same `now` returns it unchanged. */
  lemma OrderIdempotent(xs: seq<Appointment>, now: int)
    ensures Order(Order(xs, now), now) == Order(xs, now)
  {
    PartitionSortIdempotent(UpcomingTest(now), PastTest(now), SortKey, xs);
  }

  // ---------------------------------------------------------------- what is shown

  /** `displayedAppointments`: everything when expanded, else the first five. */
  function Displayed(ordered: seq<Appointment>, showAll: bool): (shown: seq<Appointment>)
    ensures |shown| <= |ordered| && shown == ordered[..|shown|]
    ensures |shown| == if showAll || |ordered| <= CollapsedCount then |ordered| else CollapsedCount
  {
    if showAll then ordered else ordered[..if |ordered| < CollapsedCount then |ordered| else CollapsedCount]
  }

  /** The "next" flag of row `i`: not past, and first or following a past row. */
  predicate IsNext(shown: seq<Appointment>, i: nat, now: int)
    requires i < |shown|
  {
    !IsPast(shown[i], now) && (i == 0 || IsPast(shown[i - 1], now))
  }

  /** Only the first row can be "next", and it is exactly when some appointment is upcoming. */
  lemma NextIsFirstUpcoming(xs: seq<Appointment>, now: int, showAll: bool, i: nat)
    requires i < |Displayed(Order(xs, now), showAll)|
    ensures IsNext(Displayed(Order(xs, now), showAll), i, now) <==> i == 0 && Upcoming(xs, now) != []
  {
    var shown := Displayed(Order(xs, now), showAll);
    OrderPartition(xs, now);
    assert forall j :: 0 <= j < |shown| ==> shown[j] == Order(xs, now)[j];
  }

  /** At most one row is flagged "next". */
  lemma AtMostOneNext(xs: seq<Appointment>, now: int, showAll: bool, i: nat, j: nat)
    requires i < |Displayed(Order(xs, now), showAll)| && j < |Displayed(Order(xs, now), showAll)|
    requires IsNext(Displayed(Order(xs, now), showAll), i, now)
    requires IsNext(Displayed(Order(xs, now), showAll), j, now)
    ensures i == j
  {
    NextIsFirstUpcoming(xs, now, showAll, i);
    NextIsFirstUpcoming(xs, now, showAll, j);
  }
}
