/** The alerts page: when each EPI is next due for inspection, how many days
    remain, and how its row in the alert table is coloured and labelled. The
    list of EPIs arrives already filtered by the server; the page computes the
    schedule of each one afresh. */
module Alertes {
  import opened Wrappers
  import opened Records

  // ---------------------------------------------------------------------------
  // JavaScript truthiness of the values involved

  /** An optional number is truthy when present and non-zero. */
  predicate Truthy(n: Option<int>)
  {
    n.Some? && n.value != 0
  }

  /** JavaScript's `a || b` with an optional number on the left. */
  function OrElse(a: Option<int>, b: int): (r: int)
    ensures Truthy(a) ==> r == a.value
    ensures !Truthy(a) ==> r == b
  {
    if Truthy(a) then a.value else b
  }

  // ---------------------------------------------------------------------------
  // Scheduling

  /** The date the schedule counts from: the last inspection when there is
      one, otherwise the day the item entered service. */
  function BaseDate(epi: Epi): (r: Option<Day>)
    ensures epi.dernierControle.Some? ==> r == epi.dernierControle
    ensures epi.dernierControle.None? ==> r == epi.dateMiseService
    ensures r.None? <==> epi.dernierControle.None? && epi.dateMiseService.None?
  {
    if epi.dernierControle.Some? then epi.dernierControle
    else if epi.dateMiseService.Some? then epi.dateMiseService
    else None
  }

  /** The interval inherited from the equipment type (`type_epi?.periodicite_controle`). */
  function TypePeriodicity(epi: Epi): Option<int>
  {
    match epi.typeEpi
    case None => None
    case Some(t) => t.periodiciteControle
  }

  /** `periodicite_controle || (type_epi?.periodicite_controle || 0)`: the
      item's own interval unless it is absent or zero (a negative one is kept),
      then the type's, then 0. */
  function Periodicity(epi: Epi): (p: int)
    ensures Truthy(epi.periodiciteControle) ==> p == epi.periodiciteControle.value
    ensures !Truthy(epi.periodiciteControle) && TypePeriodicity(epi).Some? ==> p == TypePeriodicity(epi).value
    ensures !Truthy(epi.periodiciteControle) && TypePeriodicity(epi).None? ==> p == 0
  {
    OrElse(epi.periodiciteControle, OrElse(TypePeriodicity(epi), 0))
  }

  /** `getDaysRemaining`: the signed number of days from `today` to the next
      inspection, or None when the item has no schedule (no base date, or an
      interval that is not positive). */
  function DaysRemaining(epi: Epi, today: Day): (r: Option<int>)
    ensures r.Some? <==> BaseDate(epi).Some? && Periodicity(epi) > 0
    ensures r.Some? ==> r.value == BaseDate(epi).value + Periodicity(epi) - today
  {
    if epi.dernierControle.None? && epi.dateMiseService.None? then None
    else
      match BaseDate(epi)
      case None => None
      case Some(base) =>
        var periodicite := Periodicity(epi);
        if periodicite <= 0 then None
        else Some(base + periodicite - today)
  }

  /** `calculateNextControlDate`: the next inspection date, formatted, under the
      same guards as DaysRemaining; "-" when there is no schedule. */
  function NextControlDate(epi: Epi, format: Day -> Option<string>): (r: string)
    ensures BaseDate(epi).None? ==> r == Dash
    ensures Periodicity(epi) <= 0 ==> r == Dash
    ensures BaseDate(epi).Some? && Periodicity(epi) > 0 ==>
              r == FormatDate(Some(BaseDate(epi).value + Periodicity(epi)), format)
  {
    if epi.dernierControle.None? && epi.dateMiseService.None? then Dash
    else
      match BaseDate(epi)
      case None => Dash
      case Some(base) =>
        var periodicite := Periodicity(epi);
        if periodicite <= 0 then Dash
        else FormatDate(Some(base + periodicite), format)
  }

  /** The two schedule columns agree: "-" in the date column exactly when the
      day count is absent, and otherwise the date shown is today plus the days
      remaining. */
  lemma NextDateAgreesWithDaysRemaining(epi: Epi, today: Day, format: Day -> Option<string>)
    ensures DaysRemaining(epi, today).None? ==> NextControlDate(epi, format) == Dash
    ensures DaysRemaining(epi, today).Some? ==>
              NextControlDate(epi, format) == FormatDate(Some(today + DaysRemaining(epi, today).value), format)
  {
  }

  /** Without any date the item is never scheduled, whatever its interval. */
  lemma NoDateNoSchedule(epi: Epi, today: Day, format: Day -> Option<string>)
    requires epi.dernierControle.None? && epi.dateMiseService.None?
    ensures DaysRemaining(epi, today).None?
    ensures NextControlDate(epi, format) == Dash
  {
  }

  /** The last inspection decides the schedule: the service date does not
      matter once an inspection has been recorded. */
  lemma LastControlOverridesServiceDate(epi: Epi, serviceDate: Option<Day>, today: Day)
    requires epi.dernierControle.Some?
    ensures DaysRemaining(epi.(dateMiseService := serviceDate), today) == DaysRemaining(epi, today)
  {
  }

  /** A negative own interval is not replaced by the type's: it disables the
      schedule even when the type carries a valid interval. */
  lemma NegativeOwnIntervalDisablesSchedule(epi: Epi, today: Day)
    requires epi.periodiciteControle.Some? && epi.periodiciteControle.value < 0
    ensures DaysRemaining(epi, today).None?
  {
  }

  /** An own interval of zero or none at all falls back to the type's. */
  lemma ZeroOwnIntervalFallsBackToType(epi: Epi, today: Day, t: TypeEpi, base: Day)
    requires epi.periodiciteControle == None || epi.periodiciteControle == Some(0)
    requires epi.typeEpi == Some(t) && t.periodiciteControle.Some? && t.periodiciteControle.value > 0
    requires BaseDate(epi) == Some(base)
    ensures DaysRemaining(epi, today) == Some(base + t.periodiciteControle.value - today)
  {
  }

  /** Each day that passes takes one day off the count. */
  lemma DaysRemainingAsTodayAdvances(epi: Epi, today: Day, k: int)
    ensures DaysRemaining(epi, today).Some? <==> DaysRemaining(epi, today + k).Some?
    ensures DaysRemaining(epi, today).Some? ==>
              DaysRemaining(epi, today + k).value == DaysRemaining(epi, today).value - k
  {
  }

  /** A later last inspection leaves more days. */
  lemma DaysRemainingGrowsWithLastControl(epi: Epi, today: Day, d1: Day, d2: Day)
    requires d1 <= d2
    requires DaysRemaining(epi.(dernierControle := Some(d1)), today).Some?
    ensures DaysRemaining(epi.(dernierControle := Some(d2)), today).Some?
    ensures DaysRemaining(epi.(dernierControle := Some(d1)), today).value
            <= DaysRemaining(epi.(dernierControle := Some(d2)), today).value
  {
  }

  /** A longer own interval leaves more days. */
  lemma DaysRemainingGrowsWithInterval(epi: Epi, today: Day, p1: int, p2: int)
    requires 0 < p1 <= p2
    requires BaseDate(epi).Some?
    ensures DaysRemaining(epi.(periodiciteControle := Some(p1)), today).Some?
    ensures DaysRemaining(epi.(periodiciteControle := Some(p2)), today).Some?
    ensures DaysRemaining(epi.(periodiciteControle := Some(p2)), today).value
            - DaysRemaining(epi.(periodiciteControle := Some(p1)), today).value == p2 - p1
  {
  }

  /** Last inspection on day 0, own interval 30, today day 19: due on day 30,
      11 days left, shown in the warning colour. */
  lemma ElevenDaysLeftWarns(epi: Epi)
    requires epi.dernierControle == Some(0) && epi.periodiciteControle == Some(30)
    ensures DaysRemaining(epi, 19) == Some(11)
    ensures UrgencyColor(DaysRemaining(epi, 19)) == WarningMain
  {
  }

  // ---------------------------------------------------------------------------
  // Urgency colour

  /** The theme colours the page uses for the day count. */
  datatype Color = Inherit | ErrorMain | WarningMain | SuccessMain

  /** The theme key each colour stands for. */
  function ColorKey(c: Color): string
  {
    match c
    case Inherit => "inherit"
    case ErrorMain => "error.main"
    case WarningMain => "warning.main"
    case SuccessMain => "success.main"
  }

  /** `getUrgencyColor`: overdue and fewer than 7 days share the error colour,
      7 to 14 days warn, 15 and more are fine; no schedule inherits. */
  function UrgencyColor(daysRemaining: Option<int>): (c: Color)
    ensures daysRemaining.None? <==> c == Inherit
    ensures daysRemaining.Some? ==> (c == ErrorMain <==> daysRemaining.value < 7)
    ensures daysRemaining.Some? ==> (c == WarningMain <==> 7 <= daysRemaining.value < 15)
    ensures daysRemaining.Some? ==> (c == SuccessMain <==> 15 <= daysRemaining.value)
  {
    match daysRemaining
    case None => Inherit
    case Some(d) =>
      if d < 0 then ErrorMain
      else if d < 7 then ErrorMain
      else if d < 15 then WarningMain
      else SuccessMain
  }

  /** How reassuring a colour is: error, then warning, then success. */
  function Calmness(c: Color): nat
  {
    match c
    case Inherit => 0
    case ErrorMain => 0
    case WarningMain => 1
    case SuccessMain => 2
  }

  /** More days never give a more alarming colour. */
  lemma UrgencyColorMonotone(d1: int, d2: int)
    requires d1 <= d2
    ensures Calmness(UrgencyColor(Some(d1))) <= Calmness(UrgencyColor(Some(d2)))
  {
  }

  /** The theme key of each urgency class, as the page writes it: only two
      keys, `error.main` and `warning.main`, carry an alert. */
  lemma UrgencyColorKeys(d: Option<int>)
    ensures d.None? ==> ColorKey(UrgencyColor(d)) == "inherit"
    ensures d.Some? && d.value < 7 ==> ColorKey(UrgencyColor(d)) == "error.main"
    ensures d.Some? && 7 <= d.value < 15 ==> ColorKey(UrgencyColor(d)) == "warning.main"
    ensures d.Some? && 15 <= d.value ==> ColorKey(UrgencyColor(d)) == "success.main"
  {
  }

  /** Overdue items are not told apart from items due within the week. */
  lemma OverdueSharesUrgentColor(d: int)
    requires d < 0
    ensures UrgencyColor(Some(d)) == UrgencyColor(Some(0)) == ErrorMain
  {
  }

  // ---------------------------------------------------------------------------
  // Row display

  /** The row background: `daysRemaining && daysRemaining < 0`, so a count of
      zero (falsy) is not highlighted. */
  function Highlighted(daysRemaining: Option<int>): (h: bool)
    ensures h <==> daysRemaining.Some? && daysRemaining.value < 0
  {
    Truthy(daysRemaining) && daysRemaining.value < 0
  }

  /** What the "days remaining" cell shows: a dash, an overdue notice with the
      icon for errors, or the count with a warning icon when it is small. */
  datatype DaysCell = NoSchedule | Late(days: nat) | Due(days: nat, warningIcon: bool)

  /** The cell for a day count. */
  function DaysCellOf(daysRemaining: Option<int>): (cell: DaysCell)
    ensures daysRemaining.None? <==> cell == NoSchedule
    ensures cell.Late? <==> daysRemaining.Some? && daysRemaining.value < 0
    ensures cell.Late? ==> cell.days == -daysRemaining.value
    ensures cell.Due? ==> cell.days == daysRemaining.value
    ensures cell.Due? ==> (cell.warningIcon <==> daysRemaining.value < 15)
  {
    match daysRemaining
    case None => NoSchedule
    case Some(d) =>
      if d < 0 then Late(-d)
      else Due(d, d < 15)
  }

  /** The decimal digit for `d`. */
  function DigitChar(d: nat): (c: char)
    requires d < 10
    ensures '0' <= c <= '9'
  {
    "0123456789"[d]
  }

  /** The decimal text of a count, as the page prints a number. */
  function Decimal(n: nat): (s: string)
    ensures |s| >= 1
    ensures forall i :: 0 <= i < |s| ==> '0' <= s[i] <= '9'
    decreases n
  {
    if n < 10 then [DigitChar(n)] else Decimal(n / 10) + [DigitChar(n % 10)]
  }

  /** Reads a string of decimal digits back as a number. */
  function DecimalValue(s: string): nat
    requires forall i :: 0 <= i < |s| ==> '0' <= s[i] <= '9'
  {
    if s == [] then 0
    else DecimalValue(s[..|s| - 1]) * 10 + (s[|s| - 1] as int - '0' as int)
  }

  /** The printed count reads back as the count. */
  lemma {:induction false} DecimalRoundTrip(n: nat)
    ensures DecimalValue(Decimal(n)) == n
  {
    if n >= 10 {
      var s := Decimal(n);
      assert s[..|s| - 1] == Decimal(n / 10);
      DecimalRoundTrip(n / 10);
    } else {
      assert "0123456789"[n] as int - '0' as int == n;
    }
  }

  const LatePrefix: string := "En retard de "
  const DaySuffix: string := " jour(s)"

  /** The text of the days cell: "-", "En retard de N jour(s)" or
      "N jour(s)", where the printed N reads back as the cell's count. */
  function DaysText(cell: DaysCell): (r: string)
    ensures r == Dash <==> cell == NoSchedule
    ensures cell.Late? ==> r == LatePrefix + Decimal(cell.days) + DaySuffix
    ensures cell.Due? ==> r == Decimal(cell.days) + DaySuffix
    ensures !cell.NoSchedule? ==> DecimalValue(Decimal(cell.days)) == cell.days
  {
    match cell
    case NoSchedule => Dash
    case Late(n) =>
      DecimalRoundTrip(n);
      LatePrefix + Decimal(n) + DaySuffix
    case Due(n, _) =>
      DecimalRoundTrip(n);
      assert |Decimal(n) + DaySuffix| > 1;
      Decimal(n) + DaySuffix
  }

  /** An overdue item reads "En retard de |d| jour(s)", and the number printed
      is the magnitude of the count. */
  lemma LateTextShowsMagnitude(d: int)
    requires d < 0
    ensures DaysText(DaysCellOf(Some(d))) == LatePrefix + Decimal(-d) + DaySuffix
    ensures DecimalValue(Decimal(-d)) == -d
  {
    DecimalRoundTrip(-d);
  }

  /** One row of the alert table, as far as it depends on the schedule. */
  datatype AlertRow = AlertRow(
    highlighted: bool,
    typeLabel: string,
    lastControl: string,
    nextControl: string,
    color: Color,
    days: DaysCell)

  /** `epi.dernier_controle || epi.date_mise_service`: the date shown in the
      "last inspection" column. */
  function LastControlShown(epi: Epi): (r: Option<Day>)
    ensures r == BaseDate(epi)
  {
    if epi.dernierControle.Some? then epi.dernierControle else epi.dateMiseService
  }

  /** The row the page renders for `epi` on day `today`. */
  function Row(epi: Epi, today: Day, format: Day -> Option<string>): (row: AlertRow)
    ensures row.highlighted <==> row.days.Late?
    ensures row.highlighted ==> row.color == ErrorMain
    ensures row.days == NoSchedule <==> row.color == Inherit
    ensures row.days == NoSchedule ==> row.nextControl == Dash
    ensures row.days.Due? && row.days.warningIcon ==> row.color != SuccessMain
    ensures row.lastControl == FormatDate(BaseDate(epi), format)
    ensures row.days == DaysCellOf(DaysRemaining(epi, today))
    ensures row.color == UrgencyColor(DaysRemaining(epi, today))
    ensures row.highlighted <==> DaysRemaining(epi, today).Some? && DaysRemaining(epi, today).value < 0
    ensures row.nextControl == NextControlDate(epi, format)
    ensures row.typeLabel ==
              (if epi.typeEpi.Some? && epi.typeEpi.value.libelle != "" then epi.typeEpi.value.libelle else Dash)
  {
    var daysRemaining := DaysRemaining(epi, today);
    NextDateAgreesWithDaysRemaining(epi, today, format);
    AlertRow(
      Highlighted(daysRemaining),
      if epi.typeEpi.Some? && epi.typeEpi.value.libelle != "" then epi.typeEpi.value.libelle else Dash,
      FormatDate(LastControlShown(epi), format),
      NextControlDate(epi, format),
      UrgencyColor(daysRemaining),
      DaysCellOf(daysRemaining))
  }
}
