/** The pipeline's two date operations: writing an API timestamp as a display date, and
    reading a column of display dates back for the time period of a dataset. */
module DateFields {
  import opened Wrappers
  import opened Text
  import opened Dates
  import opened Records

  /** `date.replace("Z", "+00:00")`: the text handed to `datetime.fromisoformat`. */
  function IsoText(date: string): string {
    ReplaceChar(date, 'Z', "+00:00")
  }

  /** A cell that is empty or holds a rendered date. */
  ghost predicate IsDisplayed(cell: Option<string>) {
    cell.None? || exists d: CalendarDate :: cell.value == Render(d)
  }

  /** `_format_date`: an absent or empty date gives None; otherwise the timestamp is parsed and
      rendered as "Month D, YYYY", and a timestamp the parser rejects raises. What it writes
      reads back as the date the parser produced. */
  function FormatDate(lib: Library, date: Option<string>): (r: Result<Option<string>, Error>)
    ensures !Truthy(date) ==> r == Success(None)
    ensures Truthy(date) ==> (r.Failure? <==> lib.fromIsoFormat(IsoText(date.value)).None?)
    ensures r.Failure? ==> r.error == MalformedTimestamp(date.value)
    ensures Truthy(date) && r.Success? ==>
              r.value.Some? && |r.value.value| > 0 &&
              ParseDisplayDate(r.value.value) == lib.fromIsoFormat(IsoText(date.value))
    ensures r.Success? ==> IsDisplayed(r.value)
  {
    if !Truthy(date) then Success(None)
    else
      match lib.fromIsoFormat(IsoText(date.value))
      case None => Failure(MalformedTimestamp(date.value))
      case Some(d) => ParseRender(d); Success(Some(Render(d)))
  }

  /** The loop of `_get_date_range`: the parsed dates of the truthy cells, in order; the first
      cell the parser cannot read raises. */
  function ReadDates(column: seq<Option<string>>): (r: Result<seq<CalendarDate>, Error>)
    ensures r.Success? <==> forall i :: 0 <= i < |column| && Truthy(column[i]) ==> ParseDisplayDate(column[i].value).Some?
    ensures r.Success? ==> forall d :: d in r.value <==>
              exists i :: 0 <= i < |column| && Truthy(column[i]) && ParseDisplayDate(column[i].value) == Some(d)
    ensures r.Failure? ==> exists i :: 0 <= i < |column| && Truthy(column[i]) && r.error == UnreadableDate(column[i].value)
    decreases |column|
  {
    if |column| == 0 then Success([])
    else
      var init, cell := column[..|column| - 1], column[|column| - 1];
      assert forall i :: 0 <= i < |init| ==> init[i] == column[i];
      match ReadDates(init)
      case Failure(e) => Failure(e)
      case Success(dates) =>
        if !Truthy(cell) then Success(dates)
        else
          match ParseDisplayDate(cell.value)
          case None => Failure(UnreadableDate(cell.value))
          case Some(d) => Success(dates + [d])
  }

  /** Once a date after a readable prefix fails to parse, reading the column fails with it. */
  lemma {:induction false} ReadDatesStops(column: seq<Option<string>>, i: nat)
    requires i < |column| && ReadDates(column[..i]).Success?
    requires Truthy(column[i]) && ParseDisplayDate(column[i].value).None?
    ensures ReadDates(column) == Failure(UnreadableDate(column[i].value))
    decreases |column|
  {
    var init := column[..|column| - 1];
    if i == |column| - 1 {
      assert init == column[..i];
    } else {
      assert init[..i] == column[..i] && init[i] == column[i];
      ReadDatesStops(init, i);
    }
  }

  /** The result of `_get_date_range` once the dates are read: (None, None) when there are
      none, else their minimum and maximum. */
  function RangeOf(dates: seq<CalendarDate>): (range: (Option<CalendarDate>, Option<CalendarDate>))
    ensures |dates| == 0 <==> range.0.None?
    ensures range.0.None? <==> range.1.None?
    ensures range.0.Some? ==>
              (range.0.value in dates && range.1.value in dates &&
               forall k :: 0 <= k < |dates| ==> NotAfter(range.0.value, dates[k]) && NotAfter(dates[k], range.1.value))
  {
    if |dates| == 0 then (None, None) else (Some(Earliest(dates)), Some(Latest(dates)))
  }

  lemma ReadDisplayed(cell: Option<string>)
    requires IsDisplayed(cell) && Truthy(cell)
    ensures ParseDisplayDate(cell.value).Some?
  {
    var d: CalendarDate :| cell.value == Render(d);
    ParseRender(d);
  }

  /** A column of dates the pipeline wrote itself always reads back. */
  lemma ReadDisplayedDates(column: seq<Option<string>>)
    requires forall i :: 0 <= i < |column| ==> IsDisplayed(column[i])
    ensures ReadDates(column).Success?
  {
    forall i | 0 <= i < |column| && Truthy(column[i])
      ensures ParseDisplayDate(column[i].value).Some?
    {
      ReadDisplayed(column[i]);
    }
  }
}
