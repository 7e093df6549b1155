/** Trading days (internal/pkg/utils/trading_calendar.go). Days are numbered, day 0 being
    Thursday 1970-01-01; the holiday table is any finite set of days. */
module Calendar {
  import opened Wrappers

  predicate IsWeekend(day: int) {
    (day + 4) % 7 == 0 || (day + 4) % 7 == 6
  }

  predicate IsTradingDay(day: int, holidays: set<int>) {
    !IsWeekend(day) && day !in holidays
  }

  /** A day before which there is no holiday. */
  ghost function Earliest(holidays: set<int>): (first: int)
    ensures forall h :: h in holidays ==> first <= h
  {
    if holidays == {} then 0
    else
      var h := SomeOf(holidays);
      var first := Earliest(holidays - {h});
      assert forall x :: x in holidays ==> x == h || x in holidays - {h};
      if h < first then h else first
  }

  /** How far back the search can still go: down to the earliest holiday, then over one weekend. */
  ghost function Distance(day: int, first: int): nat {
    if day >= first then day - first + 3
    else if (day + 4) % 7 == 0 then 2
    else if (day + 4) % 7 == 6 then 1
    else 0
  }

  lemma DistanceDecreases(day: int, holidays: set<int>)
    requires !IsTradingDay(day, holidays)
    ensures Distance(day - 1, Earliest(holidays)) < Distance(day, Earliest(holidays))
  {
  }

  /** The last trading day at or before a day. */
  function LastTradingDay(day: int, holidays: set<int>): (last: int)
    ensures last <= day && IsTradingDay(last, holidays)
    ensures forall d :: last < d <= day ==> !IsTradingDay(d, holidays)
    decreases Distance(day, Earliest(holidays))
  {
    if IsTradingDay(day, holidays) then day
    else
      DistanceDecreases(day, holidays);
      LastTradingDay(day - 1, holidays)
  }

  /** The greatest trading day strictly before a day. */
  function PreviousDay(day: int, holidays: set<int>): (prev: int)
    ensures prev < day && IsTradingDay(prev, holidays)
    ensures forall d :: prev < d < day ==> !IsTradingDay(d, holidays)
  {
    LastTradingDay(day - 1, holidays)
  }

  method PreviousTradingDay(day: int, holidays: set<int>) returns (prev: int)
    ensures prev == PreviousDay(day, holidays)
  {
    prev := day - 1;
    while !IsTradingDay(prev, holidays)
      invariant LastTradingDay(prev, holidays) == LastTradingDay(day - 1, holidays)
      decreases Distance(prev, Earliest(holidays))
    {
      DistanceDecreases(prev, holidays);
      prev := prev - 1;
    }
  }

  /** It is the only such day. */
  lemma PreviousDayUnique(day: int, holidays: set<int>, prev: int)
    requires prev < day && IsTradingDay(prev, holidays)
    requires forall d :: prev < d < day ==> !IsTradingDay(d, holidays)
    ensures prev == PreviousDay(day, holidays)
  {
  }

  /** That is, the one day from Monday to Friday outside the holiday table after which only
      weekends and holidays come. Sunday is day 0 of the week. */
  lemma PreviousDayIff(day: int, holidays: set<int>, prev: int)
    ensures prev == PreviousDay(day, holidays) <==>
              && prev < day && 1 <= (prev + 4) % 7 <= 5 && prev !in holidays
              && forall d :: prev < d < day ==> (d + 4) % 7 in {0, 6} || d in holidays
  {
    forall d
      ensures IsTradingDay(d, holidays) <==> !((d + 4) % 7 in {0, 6} || d in holidays)
      ensures IsTradingDay(d, holidays) <==> 1 <= (d + 4) % 7 <= 5 && d !in holidays
    {
    }
    var last := PreviousDay(day, holidays);
    if last < prev < day {
      assert !IsTradingDay(prev, holidays);
    }
  }

  /** Without holidays, the step is one day back, or back over the weekend. */
  lemma PreviousDayNoHolidays(day: int)
    ensures PreviousDay(day, {}) == day - (match (day + 4) % 7 case 1 => 3 case 0 => 2 case _ => 1)
  {
    PreviousDayUnique(day, {}, day - (match (day + 4) % 7 case 1 => 3 case 0 => 2 case _ => 1));
  }
}
