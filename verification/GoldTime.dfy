/** How long a payment buys gold for, and what a reversal takes back. */
module GoldTime {
  import opened Options
  import opened Arithmetic

  /** The prices of a month and of a year in pennies. */
  datatype Prices = Prices(month: int, year: int) {
    predicate Valid() { month > 0 && year > 0 }
  }

  datatype Span = Span(months: int, days: int)

  /** Integer division by a positive number rounds down, for negative payments too. */
  function MonthsAndDays(p: Prices, pennies: int): Span
    requires p.Valid()
  {
    if pennies >= p.year then Span(12 * (pennies / p.year), 366 * (pennies / p.year))
    else Span(pennies / p.month, 31 * (pennies / p.month))
  }

  /** None where the source's assertion that long purchases are whole years fires. */
  function DaysFromMonths(months: int): Option<int> {
    if months >= 12 then
      if months % 12 == 0 then Some((months / 12) * 366) else None
    else Some(months * 31)
  }

  /** What the shop would charge for that many days. */
  function DaysToPennies(p: Prices, days: int): int {
    if days < 366 then (days / 31) * p.month else (days / 366) * p.year
  }

  /** What reversing a creddit purchase takes back. */
  function MonthsTakenBack(days: int): int {
    days / 31
  }

  /** The two ways of counting days agree on every payment if and only if a year costs at most 12 months. */
  lemma DaysAgreeIff(p: Prices)
    requires p.Valid()
    ensures (forall pennies ::
        DaysFromMonths(MonthsAndDays(p, pennies).months) == Some(MonthsAndDays(p, pennies).days))
      <==> p.year <= 12 * p.month
  {
    if p.year <= 12 * p.month {
      forall pennies
        ensures DaysFromMonths(MonthsAndDays(p, pennies).months) == Some(MonthsAndDays(p, pennies).days)
      {
        DivBounds(pennies, p.month, 12);
        DivBounds(pennies, p.year, 1);
      }
    } else {
      var pennies := 12 * p.month;
      DivBounds(pennies, p.month, 12);
      DivBounds(pennies, p.month, 13);
      assert MonthsAndDays(p, pennies) == Span(12, 372);
    }
  }

  /** The assertion never fires if and only if a year costs at most 13 months. */
  lemma NeverAssertsIff(p: Prices)
    requires p.Valid()
    ensures (forall pennies :: DaysFromMonths(MonthsAndDays(p, pennies).months).Some?) <==> p.year <= 13 * p.month
  {
    if p.year <= 13 * p.month {
      forall pennies ensures DaysFromMonths(MonthsAndDays(p, pennies).months).Some? {
        DivBounds(pennies, p.month, 13);
        DivBounds(pennies, p.year, 1);
      }
    } else {
      var pennies := 13 * p.month;
      DivBounds(pennies, p.month, 13);
      DivBounds(pennies, p.month, 14);
      assert MonthsAndDays(p, pennies).months == 13;
    }
  }

  /** More money never buys fewer months, if and only if a year costs at most 13 months. */
  lemma MonotoneIff(p: Prices)
    requires p.Valid()
    ensures (forall a, b :: a <= b ==> MonthsAndDays(p, a).months <= MonthsAndDays(p, b).months)
      <==> p.year <= 13 * p.month
  {
    if p.year <= 13 * p.month {
      forall a, b | a <= b ensures MonthsAndDays(p, a).months <= MonthsAndDays(p, b).months {
        DivBounds(a, p.month, 13);
        DivBounds(b, p.month, a / p.month);
        DivBounds(a, p.month, a / p.month);
        DivBounds(b, p.year, a / p.year);
        DivBounds(a, p.year, a / p.year);
        DivBounds(b, p.year, 1);
      }
    } else {
      var a, b := 13 * p.month, p.year;
      DivBounds(a, p.month, 13);
      DivBounds(b, p.year, 2);
      assert MonthsAndDays(p, a).months >= 13 && MonthsAndDays(p, b).months <= 12;
    }
  }

  lemma WorthOfDelivery(p: Prices, pennies: int)
    requires p.Valid() && p.year <= 12 * p.month && pennies >= 0
    ensures var worth := DaysToPennies(p, MonthsAndDays(p, pennies).days);
      worth <= pennies < worth + if pennies >= p.year then p.year else p.month
  {
    if pennies >= p.year {
      var y := pennies / p.year;
      DivBounds(pennies, p.year, 1);
      assert (366 * y) / 366 == y;
      Remainder(pennies, p.year);
    } else {
      var m := pennies / p.month;
      DivBounds(pennies, p.month, 12);
      assert (31 * m) / 31 == m;
      Remainder(pennies, p.month);
    }
  }

  /** What is delivered is never worth more than was paid, if and only if a year costs at most 12 months;
      then less than one more unit, month or year, is lost in rounding. */
  lemma NeverOverdeliversIff(p: Prices)
    requires p.Valid()
    ensures (forall pennies :: pennies >= 0 ==> DaysToPennies(p, MonthsAndDays(p, pennies).days) <= pennies)
      <==> p.year <= 12 * p.month
    ensures p.year <= 12 * p.month ==> forall pennies :: pennies >= 0 ==>
      pennies < DaysToPennies(p, MonthsAndDays(p, pennies).days) + if pennies >= p.year then p.year else p.month
  {
    if p.year <= 12 * p.month {
      forall pennies | pennies >= 0
        ensures var worth := DaysToPennies(p, MonthsAndDays(p, pennies).days);
          worth <= pennies < worth + if pennies >= p.year then p.year else p.month
      {
        WorthOfDelivery(p, pennies);
      }
    } else {
      var pennies := 12 * p.month;
      DivBounds(pennies, p.month, 12);
      DivBounds(pennies, p.month, 13);
      assert MonthsAndDays(p, pennies) == Span(12, 372);
      assert DaysToPennies(p, 372) == p.year;
    }
  }

  /** The least integer that is at least a / b. */
  function Ceiling(a: int, b: int): int
    requires b > 0
  {
    -((-a) / b)
  }

  /** A reversed creddit purchase gives back exactly what it granted below 12 months; for y whole years it
      falls short by exactly the ceiling of 6y / 31. It never takes back more. */
  lemma ReversalShortfall(months: int)
    requires months >= 0 && DaysFromMonths(months).Some?
    ensures var taken := MonthsTakenBack(DaysFromMonths(months).value);
      && taken <= months
      && (months < 12 ==> taken == months)
      && (months >= 12 ==> months - taken == Ceiling(6 * (months / 12), 31))
  {
    if months < 12 {
      assert (31 * months) / 31 == months;
    } else {
      var y := months / 12;
      assert 366 * y == 31 * (12 * y) + -6 * y;
      ShiftedDivision(-6 * y, 12 * y, 31);
    }
  }

}
