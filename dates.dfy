/** Calendar dates: the "Month D, YYYY" display form the pipeline writes, reading it back, and ordering. */
module Dates {
  import opened Wrappers
  import opened Text

  /** A date as Python's `datetime` holds it: year, month 1..12, day of month. */
  datatype Date = Date(year: nat, month: nat, day: nat) {

    /** The range a `datetime` accepts: years 1..9999 and real days of the month. */
    predicate Valid() {
      1 <= year <= 9999 && 1 <= month <= 12 && 1 <= day <= DaysInMonth(year, month)
    }
  }

  /** The dates `datetime.fromisoformat` can produce. */
  type CalendarDate = d: Date | d.Valid() witness Date(1970, 1, 1)

  predicate IsLeapYear(year: nat) {
    year % 4 == 0 && (year % 100 != 0 || year % 400 == 0)
  }

  function DaysInMonth(year: nat, month: nat): nat {
    if month == 2 then (if IsLeapYear(year) then 29 else 28)
    else if month == 4 || month == 6 || month == 9 || month == 11 then 30
    else 31
  }

  /** The full English month names `strftime('%B')` gives in the C locale. */
  const MonthNames: seq<string> := ["January", "February", "March", "April", "May", "June",
                                    "July", "August", "September", "October", "November", "December"]

  function MonthName(month: nat): (name: string)
    requires 1 <= month <= 12
    ensures |name| >= 3 && ' ' !in name && ',' !in name
  {
    MonthNames[month - 1]
  }

  /** The number of the month whose full name is `name`, or 0. */
  function MonthNumber(name: string): (month: nat)
    ensures month <= 12
    ensures 1 <= month ==> MonthName(month) == name
  {
    if name == "January" then 1 else if name == "February" then 2
    else if name == "March" then 3 else if name == "April" then 4
    else if name == "May" then 5 else if name == "June" then 6
    else if name == "July" then 7 else if name == "August" then 8
    else if name == "September" then 9 else if name == "October" then 10
    else if name == "November" then 11 else if name == "December" then 12
    else 0
  }

  lemma MonthNumberOfName(month: nat)
    requires 1 <= month <= 12
    ensures MonthNumber(MonthName(month)) == month
  {
    var name := MonthName(month);
    assert MonthNumber(name) != 0;
  }

  /** `f"{d.strftime('%B')} {d.day}, {d.year}"`: the month's full name, the day without a
      leading zero, a comma and the year. */
  function Render(d: CalendarDate): string {
    MonthName(d.month) + " " + NatToString(d.day) + ", " + NatToString(d.year)
  }

  /** Reads back the display form: month name, space, day digits, comma, space, year digits,
      and a real calendar date. Anything else is unreadable. */
  function ParseDisplayDate(s: string): Option<CalendarDate> {
    var i := IndexOf(s, ' ');
    if i == |s| then None
    else
      var month := MonthNumber(s[..i]);
      var rest := s[i + 1..];
      var j := IndexOf(rest, ',');
      if month == 0 || j + 1 >= |rest| || rest[j + 1] != ' ' then None
      else
        match (ParseNat(rest[..j]), ParseNat(rest[j + 2..]))
        case (Some(day), Some(year)) =>
          var d := Date(year, month, day);
          if d.Valid() then Some(d) else None
        case _ => None
  }

  /** How a string of the display shape is read: the month by name, then day and year. */
  lemma ParseParts(name: string, day: string, year: string)
    requires ' ' !in name && ',' !in day
    ensures ParseDisplayDate(name + " " + day + ", " + year) ==
              var month := MonthNumber(name);
              match (ParseNat(day), ParseNat(year))
              case (Some(dd), Some(yy)) => if month != 0 && Date(yy, month, dd).Valid() then Some(Date(yy, month, dd)) else None
              case _ => None
  {
    var rest := day + ", " + year;
    var s := name + " " + day + ", " + year;
    assert s == name + [' '] + rest;
    CutAt(name, ' ', rest);
    assert rest == day + [','] + (" " + year);
    CutAt(day, ',', " " + year);
    assert rest[|day| + 1] == ' ' && rest[|day| + 2..] == year;
  }

  /** Every rendered date reads back as itself. */
  lemma ParseRender(d: CalendarDate)
    ensures ParseDisplayDate(Render(d)) == Some(d)
  {
    var name, day, year := MonthName(d.month), NatToString(d.day), NatToString(d.year);
    assert ',' !in day by {
      assert AllDigits(day);
    }
    ParseParts(name, day, year);
    MonthNumberOfName(d.month);
    ParseNatToString(d.day);
    ParseNatToString(d.year);
  }

  /** A rendered date is never the empty string, so the truthiness tests of the pipeline keep it. */
  lemma RenderNonEmpty(d: CalendarDate)
    ensures |Render(d)| > 0
  {
  }

  /** Python's `a <= b` on dates: by year, then month, then day. */
  predicate NotAfter(a: Date, b: Date) {
    a.year < b.year || (a.year == b.year && (a.month < b.month || (a.month == b.month && a.day <= b.day)))
  }

  lemma NotAfterTotalOrder(a: Date, b: Date, c: Date)
    ensures NotAfter(a, a)
    ensures NotAfter(a, b) || NotAfter(b, a)
    ensures NotAfter(a, b) && NotAfter(b, a) ==> a == b
    ensures NotAfter(a, b) && NotAfter(b, c) ==> NotAfter(a, c)
  {
  }

  /** Python's `min(dates)`. */
  function Earliest(dates: seq<CalendarDate>): (m: CalendarDate)
    requires |dates| > 0
    ensures m in dates
    ensures forall k :: 0 <= k < |dates| ==> NotAfter(m, dates[k])
    decreases |dates|
  {
    if |dates| == 1 then dates[0]
    else
      var rest := Earliest(dates[1..]);
      assert forall k :: 1 <= k < |dates| ==> dates[k] == dates[1..][k - 1];
      if NotAfter(dates[0], rest) then dates[0] else rest
  }

  /** Python's `max(dates)`. */
  function Latest(dates: seq<CalendarDate>): (m: CalendarDate)
    requires |dates| > 0
    ensures m in dates
    ensures forall k :: 0 <= k < |dates| ==> NotAfter(dates[k], m)
    decreases |dates|
  {
    if |dates| == 1 then dates[0]
    else
      var rest := Latest(dates[1..]);
      assert forall k :: 1 <= k < |dates| ==> dates[k] == dates[1..][k - 1];
      if NotAfter(rest, dates[0]) then dates[0] else rest
  }
}
