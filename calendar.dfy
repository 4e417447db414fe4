/** Weekdays and the working-day count of `calculateWorkDays`. */
module Calendar {
  import opened Types

  /** `getDay()` of a date: 0 is Sunday, 6 is Saturday. Day 0 (1970-01-01)
      was a Thursday. */
  function Weekday(d: Day): (w: int)
    ensures 0 <= w < 7
  {
    (d + 4) % 7
  }

  /** The weekday after Saturday is Sunday; otherwise it is the next number. */
  lemma WeekdayNext(d: Day)
    ensures Weekday(d + 1) == if Weekday(d) == 6 then 0 else Weekday(d) + 1
  {
    var q := (d + 4) / 7;
    assert d + 4 == 7 * q + Weekday(d);
    assert d + 5 == 7 * q + Weekday(d) + 1;
  }

  /** Neither a Sunday nor a Saturday. */
  predicate IsWorkDay(d: Day) {
    Weekday(d) != 0 && Weekday(d) != 6
  }

  /** The number of days `d` with `start <= d <= end` that are working days. */
  function WorkDays(start: Day, end: Day): (n: nat)
    ensures end < start ==> n == 0
    ensures n <= if end < start then 0 else end - start + 1
    decreases end - start
  {
    if end < start then 0 else WorkDays(start, end - 1) + (if IsWorkDay(end) then 1 else 0)
  }

  /** `calculateWorkDays`: walk a day cursor from the start date to the end
      date inclusive, counting the days that are not Saturday or Sunday. */
  method CalculateWorkDays(start: Day, end: Day) returns (count: nat)
    ensures count == WorkDays(start, end)
  {
    count := 0;
    var current := start;
    while current <= end
      invariant start <= current
      invariant current == start || current <= end + 1
      invariant count == WorkDays(start, current - 1)
      decreases end - current
    {
      var dayOfWeek := Weekday(current);
      if dayOfWeek != 0 && dayOfWeek != 6 {
        count := count + 1;
      }
      current := current + 1;
    }
  }

  /** Counting over two adjacent ranges adds up. */
  lemma {:induction false} WorkDaysSplit(start: Day, mid: Day, end: Day)
    requires start - 1 <= mid <= end
    ensures WorkDays(start, end) == WorkDays(start, mid) + WorkDays(mid + 1, end)
    decreases end - mid
  {
    if mid < end {
      WorkDaysSplit(start, mid, end - 1);
    }
  }

  /** Any seven consecutive days hold exactly five working days. */
  lemma SevenDaysHoldFive(start: Day)
    ensures WorkDays(start, start + 6) == 5
  {
    WeekdayNext(start);
    WeekdayNext(start + 1);
    WeekdayNext(start + 2);
    WeekdayNext(start + 3);
    WeekdayNext(start + 4);
    WeekdayNext(start + 5);
    assert WorkDays(start, start - 1) == 0;
    assert WorkDays(start, start) == WorkDays(start, start - 1) + (if IsWorkDay(start) then 1 else 0);
    assert WorkDays(start, start + 1) == WorkDays(start, start) + (if IsWorkDay(start + 1) then 1 else 0);
    assert WorkDays(start, start + 2) == WorkDays(start, start + 1) + (if IsWorkDay(start + 2) then 1 else 0);
    assert WorkDays(start, start + 3) == WorkDays(start, start + 2) + (if IsWorkDay(start + 3) then 1 else 0);
    assert WorkDays(start, start + 4) == WorkDays(start, start + 3) + (if IsWorkDay(start + 4) then 1 else 0);
    assert WorkDays(start, start + 5) == WorkDays(start, start + 4) + (if IsWorkDay(start + 5) then 1 else 0);
    assert WorkDays(start, start + 6) == WorkDays(start, start + 5) + (if IsWorkDay(start + 6) then 1 else 0);
  }

  /** `k` whole weeks hold `5 * k` working days, whatever the first weekday. */
  lemma {:induction false} WeeksHoldFivePerWeek(start: Day, k: nat)
    ensures WorkDays(start, start + 7 * k - 1) == 5 * k
  {
    if k > 0 {
      WeeksHoldFivePerWeek(start, k - 1);
      WorkDaysSplit(start, start + 7 * (k - 1) - 1, start + 7 * k - 1);
      SevenDaysHoldFive(start + 7 * (k - 1));
    }
  }

  /** Extending a range never lowers its count. */
  lemma {:induction false} WorkDaysMonotone(start: Day, end: Day, end': Day)
    requires end <= end'
    ensures WorkDays(start, end) <= WorkDays(start, end')
    decreases end' - end
  {
    if end < end' {
      WorkDaysMonotone(start, end, end' - 1);
    }
  }

  /** The 365-working-day limit only bites on spans of at least 512 calendar
      days: 511 days are exactly 73 weeks, i.e. 365 working days. */
  lemma DurationLimitNeedsLongSpan(start: Day, end: Day)
    requires end - start + 1 <= 511
    ensures WorkDays(start, end) <= 365
  {
    WorkDaysMonotone(start, end, start + 510);
    WeeksHoldFivePerWeek(start, 73);
  }
}
