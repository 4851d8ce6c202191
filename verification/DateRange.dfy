/** `getDateRangeInclusive` of the frontend's `dateUtils.ts`. */
module DateRange {
  import opened Gregorian

  /** `new Date(y, m, 0).getDate()`: the last day of the 1-based month m, where months outside 1..12 carry
      into the year and years 0..99 mean 1900..1999. */
  function JsLastDay(y: int, m: int): int {
    var year := if 0 <= y <= 99 then 1900 + y else y;
    DaysInMonth(year + (m - 1) / 12, (m - 1) % 12 + 1)
  }

  /** Every date from `from` to `until`, in order and without a gap. */
  ghost predicate ListsDates(out: seq<Civil>, from: Civil, until: Civil)
    requires IsDate(from)
  {
    && Walks(out, from)
    && (forall i | 0 <= i < |out| :: !Before(until, out[i]))
    && (forall d | IsDate(d) && !Before(d, from) && !Before(until, d) :: d in out)
  }

  /** What one round of the loop does to year, month and day. */
  function Tick(y: int, m: int, d: int): Civil {
    var m' := if d + 1 > JsLastDay(y, m) then m + 1 else m;
    var d' := if d + 1 > JsLastDay(y, m) then 1 else d + 1;
    if m' > 12 then Civil(y + 1, 1, d') else Civil(y, m', d')
  }

  /** The one date the loop steps over: the year 0 is leap, and 1900, which JavaScript takes it for, is not. */
  const LEAP_DAY := Civil(0, 2, 29)

  predicate StepsOver(from: Civil, until: Civil) {
    Before(from, LEAP_DAY) && !Before(until, LEAP_DAY)
  }

  lemma SameLeapYears(y: int)
    requires 0 < y <= 99
    ensures IsLeap(1900 + y) <==> IsLeap(y)
  {
  }

  lemma JsLastDayIs(y: int, m: int)
    requires 1 <= m <= 12
    ensures JsLastDay(y, m) == if y == 0 && m == 2 then 28 else DaysInMonth(y, m)
  {
    assert (m - 1) / 12 == 0 && (m - 1) % 12 == m - 1;
    if 0 < y <= 99 { SameLeapYears(y); }
  }

  lemma TickIsNextDay(c: Civil)
    requires IsDate(c) && c != Civil(0, 2, 28)
    ensures Tick(c.year, c.month, c.day) == NextDay(c)
  {
    JsLastDayIs(c.year, c.month);
  }

  lemma TickSkipsLeapDay(c: Civil)
    ensures Tick(c.year, c.month, c.day) != LEAP_DAY
  {
    JsLastDayIs(0, 2);
  }

  /** The listing so far. */
  ghost predicate Walks(out: seq<Civil>, from: Civil)
    requires IsDate(from)
  {
    forall i | 0 <= i < |out| :: out[i] == Advance(from, i)
  }

  lemma ReachesDate(out: seq<Civil>, from: Civil, until: Civil, d: Civil)
    requires IsDate(from) && Walks(out, from) && Before(until, Advance(from, |out|))
    requires IsDate(d) && !Before(d, from) && !Before(until, d)
    ensures d in out
  {
    var n := AdvanceReaches(from, d);
    AdvanceOrder(from, n, |out|);
    BeforeThrough(until, Advance(from, |out|), d);
    assert out[n] == d;
  }

  /** Where the loop is: at the next date, or past `until` after the last one. */
  ghost predicate AtNext(at: Civil, from: Civil, until: Civil, n: nat)
    requires IsDate(from)
  {
    at == Advance(from, n) || (Before(until, at) && Before(until, Advance(from, n)))
  }

  lemma TickAdvances(from: Civil, until: Civil, n: nat)
    requires IsDate(from) && !StepsOver(from, until) && !Before(until, Advance(from, n))
    ensures
      var c := Advance(from, n);
      AtNext(Tick(c.year, c.month, c.day), from, until, n + 1)
  {
    var c := Advance(from, n);
    if c == Civil(0, 2, 28) {
      JsLastDayIs(0, 2);
      AdvanceOrder(from, 0, n);
      assert Before(from, LEAP_DAY);
    } else {
      TickIsNextDay(c);
    }
  }

  lemma ListsAll(out: seq<Civil>, from: Civil, until: Civil, at: Civil)
    requires IsDate(from) && Walks(out, from) && AtNext(at, from, until, |out|) && Before(until, at)
    requires forall i | 0 <= i < |out| :: !Before(until, out[i])
    ensures ListsDates(out, from, until)
  {
    forall x | IsDate(x) && !Before(x, from) && !Before(until, x)
      ensures x in out
    {
      ReachesDate(out, from, until, x);
    }
  }

  lemma SkippedDate(out: seq<Civil>, from: Civil, until: Civil)
    requires IsDate(from) && StepsOver(from, until) && LEAP_DAY !in out
    ensures !ListsDates(out, from, until)
  {
    assert IsDate(LEAP_DAY);
  }

  /** What the loop keeps: nothing past `until` is listed; without the leap day of year 0 the listing is the
      consecutive dates from `from`; and that leap day is never entered. */
  ghost predicate Listing(out: seq<Civil>, at: Civil, from: Civil, until: Civil)
    requires IsDate(from)
  {
    && (forall i | 0 <= i < |out| :: !Before(until, out[i]))
    && (!StepsOver(from, until) ==> Walks(out, from) && AtNext(at, from, until, |out|))
    && (from != LEAP_DAY ==> at != LEAP_DAY && LEAP_DAY !in out)
  }

  lemma ListingStep(out: seq<Civil>, at: Civil, from: Civil, until: Civil)
    requires IsDate(from) && Listing(out, at, from, until) && !Before(until, at)
    ensures Listing(out + [at], Tick(at.year, at.month, at.day), from, until)
  {
    if !StepsOver(from, until) { TickAdvances(from, until, |out|); }
    TickSkipsLeapDay(at);
  }

  lemma ListingEnds(out: seq<Civil>, at: Civil, from: Civil, until: Civil)
    requires IsDate(from) && Listing(out, at, from, until) && Before(until, at)
    ensures ListsDates(out, from, until) <==> !StepsOver(from, until)
  {
    if StepsOver(from, until) {
      SkippedDate(out, from, until);
    } else {
      ListsAll(out, from, until, at);
    }
  }

  /** The loop terminates for any numbers the two strings may hold. When `from` is a date, the result is every
      Gregorian date from `from` to `until`, consecutive and in order, if and only if the 29th of February of the
      year 0 is not to be listed after another date. */
  method GetDateRangeInclusive(from: Civil, until: Civil) returns (out: seq<Civil>)
    ensures IsDate(from) ==> (ListsDates(out, from, until) <==> !StepsOver(from, until))
  {
    out := [];
    var y, m, d := from.year, from.month, from.day;
    while y < until.year || (y == until.year && m < until.month) ||
          (y == until.year && m == until.month && d <= until.day)
      invariant IsDate(from) ==> Listing(out, Civil(y, m, d), from, until)
      decreases until.year - y, (if m < 13 then 13 - m else 0), 31 - d
    {
      ghost var at := Civil(y, m, d);
      if IsDate(from) { ListingStep(out, at, from, until); }
      out := out + [Civil(y, m, d)];
      d := d + 1;
      var lastDay := JsLastDay(y, m);
      if d > lastDay {
        d := 1;
        m := m + 1;
      }
      if m > 12 {
        m := 1;
        y := y + 1;
      }
      assert Civil(y, m, d) == Tick(at.year, at.month, at.day);
    }
    if IsDate(from) { ListingEnds(out, Civil(y, m, d), from, until); }
  }

  /** Such a listing is strictly increasing, starts at `from` and, when `until` is a date, ends there. */
  lemma RangeIsComplete(out: seq<Civil>, from: Civil, until: Civil)
    requires IsDate(from) && ListsDates(out, from, until)
    ensures forall i, j | 0 <= i < j < |out| :: Before(out[i], out[j])
    ensures IsDate(until) && !Before(until, from) ==> out != [] && out[0] == from && out[|out| - 1] == until
  {
    forall i, j | 0 <= i < j < |out|
      ensures Before(out[i], out[j])
    {
      AdvanceOrder(from, i, j);
    }
    if IsDate(until) && !Before(until, from) {
      EndsAtBound(out, from, until);
    }
  }

  lemma EndsAtBound(out: seq<Civil>, from: Civil, until: Civil)
    requires IsDate(from) && IsDate(until) && !Before(until, from) && ListsDates(out, from, until)
    ensures out != [] && out[0] == from && out[|out| - 1] == until
  {
    var n := AdvanceReaches(from, until);
    assert until in out;
    AdvanceOrder(from, n, |out| - 1);
    var i :| 0 <= i < |out| && out[i] == until;
    AdvanceOrder(from, i, |out| - 1);
    AdvanceOrder(from, |out| - 1, i);
    assert out[0] == Advance(from, 0);
  }

  /** Between two dates in order the number of dates listed is the difference of their day numbers plus one. */
  lemma RangeLength(out: seq<Civil>, from: Civil, until: Civil)
    requires IsDate(from) && IsDate(until) && ListsDates(out, from, until) && !Before(until, from)
    ensures |out| == Ordinal(until) - Ordinal(from) + 1
  {
    var n := |out| - 1;
    assert 0 <= n && until == Advance(from, n) by {
      EndsAtBound(out, from, until);
      assert out[n] == Advance(from, n);
    }
    AdvanceOrdinal(from, n);
  }
}
