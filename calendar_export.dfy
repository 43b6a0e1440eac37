/**
 * The calendar export page (pages/1_Kalender_Export.py): the calendars offered for selection,
 * the optional hiding of plain services, the projection of each appointment to a table row,
 * the optional removal of duplicate rows, and when a table exists at all.
 *
 * Appointments and calendars are what the church-management client returns; date and time
 * formatting (`strftime`, with `astimezone` for the times) are parameters.
 */
module CalendarExport {
  import opened Wrappers
  import opened Sequences
  import opened Times

  datatype Calendar = Calendar(id: int, name: string, isPrivate: bool)

  /** The fields the page reads from an appointment. */
  datatype Appointment = Appointment(
    startDate: Instant, endDate: Instant, caption: string, calendar: Calendar,
    information: Option<string>, note: Option<string>, allDay: bool)

  /**
   * One row of the page's table: the appointment's record after the projection loop. A field
   * that is `None` in `startTime`/`endTime` is a key the record never received (NaN in the frame).
   */
  datatype CalendarRow = CalendarRow(
    startDate: string, endDate: string, caption: string, calendar: string,
    information: Option<string>, note: Option<string>, allDay: bool,
    startTime: Option<string>, endTime: Option<string>)

  /** `drop_duplicates` on a column the frame lacks raises KeyError. */
  datatype PageError = MissingColumn(name: string)

  const ExcludedCalendarName: string := "Amtsträger"
  const RegularServiceCaption: string := "Gottesdienst"

  // ---------------------------------------------------------------- selection and filtering

  predicate IsOffered(c: Calendar)
  {
    !c.isPrivate && c.name != ExcludedCalendarName
  }

  /** The calendars offered in the sidebar: all but the private ones and "Amtsträger", in order. */
  function CalendarOptions(calendars: seq<Calendar>): (r: seq<Calendar>)
    ensures forall c :: c in r <==> c in calendars && !c.isPrivate && c.name != ExcludedCalendarName
    ensures IsSubsequence(r, calendars)
  {
    Filter(calendars, IsOffered)
  }

  predicate IsShown(a: Appointment)
  {
    a.caption != RegularServiceCaption || a.note.Some?
  }

  /** Hiding regular services: an appointment stays iff it is not a plain "Gottesdienst" without note. */
  function HideRegularServices(appointments: seq<Appointment>): (r: seq<Appointment>)
    ensures forall a :: a in r <==> a in appointments && (a.caption != RegularServiceCaption || a.note != None)
    ensures IsSubsequence(r, appointments)
    ensures forall a :: multiset(r)[a] == if IsShown(a) then multiset(appointments)[a] else 0
  {
    Filter(appointments, IsShown)
  }

  lemma HideRegularServicesIdempotent(appointments: seq<Appointment>)
    ensures HideRegularServices(HideRegularServices(appointments)) == HideRegularServices(appointments)
  {
    FilterIdempotent(appointments, IsShown);
  }

  // ---------------------------------------------------------------- projection

  /**
   * The record the loop body leaves for one appointment: the calendar replaced by its name,
   * times only for appointments that are not all-day, both dates formatted, and the end date
   * blanked when its formatted text equals the start date's.
   */
  function ProjectRow(a: Appointment, formatDate: Instant -> string, formatTime: Instant -> string): (r: CalendarRow)
    ensures r.calendar == a.calendar.name && r.caption == a.caption
    ensures r.information == a.information && r.note == a.note && r.allDay == a.allDay
    ensures r.startTime.Some? <==> !a.allDay
    ensures r.endTime.Some? <==> !a.allDay
    ensures !a.allDay ==> r.startTime == Some(formatTime(a.startDate)) && r.endTime == Some(formatTime(a.endDate))
    ensures r.startDate == formatDate(a.startDate)
    ensures r.endDate == "" <==> formatDate(a.startDate) == formatDate(a.endDate) || formatDate(a.endDate) == ""
    ensures r.endDate != "" ==> r.endDate == formatDate(a.endDate)
  {
    var startTime := if a.allDay then None else Some(formatTime(a.startDate));
    var endTime := if a.allDay then None else Some(formatTime(a.endDate));
    var startDate := formatDate(a.startDate);
    var endDate := formatDate(a.endDate);
    CalendarRow(startDate, if startDate == endDate then "" else endDate, a.caption, a.calendar.name,
                a.information, a.note, a.allDay, startTime, endTime)
  }

  /** The end date is compared as formatted text: two instants on the same formatted day blank it. */
  lemma EndDateComparedAsText(a: Appointment, formatDate: Instant -> string, formatTime: Instant -> string)
    requires a.startDate != a.endDate && formatDate(a.startDate) == formatDate(a.endDate)
    ensures ProjectRow(a, formatDate, formatTime).endDate == ""
  {
  }

  /** The loop `for d in data`: one record per appointment, in the same order. */
  method ProjectRows(appointments: seq<Appointment>, formatDate: Instant -> string, formatTime: Instant -> string)
    returns (data: seq<CalendarRow>)
    ensures |data| == |appointments|
    ensures forall i :: 0 <= i < |data| ==> data[i] == ProjectRow(appointments[i], formatDate, formatTime)
  {
    data := [];
    var i := 0;
    while i < |appointments|
      invariant 0 <= i <= |appointments|
      invariant |data| == i
      invariant forall j :: 0 <= j < i ==> data[j] == ProjectRow(appointments[j], formatDate, formatTime)
    {
      data := data + [ProjectRow(appointments[i], formatDate, formatTime)];
      i := i + 1;
    }
  }

  // ---------------------------------------------------------------- duplicates

  /** The subset `["startDate", "startTime", "caption"]` of `drop_duplicates`; a missing time is NaN, equal to NaN. */
  datatype RowKey = RowKey(startDate: string, startTime: Option<string>, caption: string)

  function KeyOf(r: CalendarRow): RowKey
  {
    RowKey(r.startDate, r.startTime, r.caption)
  }

  function KeysOf(rows: seq<CalendarRow>): set<RowKey>
  {
    set r | r in rows :: KeyOf(r)
  }

  predicate DistinctKeys(rows: seq<CalendarRow>)
  {
    forall i, j :: 0 <= i < j < |rows| ==> KeyOf(rows[i]) != KeyOf(rows[j])
  }

  /** The rows whose key is neither in `seen` nor on an earlier row, in order. */
  function DedupFrom(rows: seq<CalendarRow>, seen: set<RowKey>): (out: seq<CalendarRow>)
    ensures |out| <= |rows|
    ensures DistinctKeys(out)
    ensures forall r :: r in out ==> KeyOf(r) !in seen
    ensures KeysOf(out) == KeysOf(rows) - seen
    ensures IsSubsequence(out, rows)
    decreases |rows|
  {
    if rows == [] then []
    else
      var k := KeyOf(rows[0]);
      assert KeysOf(rows) == {k} + KeysOf(rows[1..]) by {
        assert rows == [rows[0]] + rows[1..];
      }
      if k in seen then DedupFrom(rows[1..], seen)
      else
        var rest := DedupFrom(rows[1..], seen + {k});
        assert ([rows[0]] + rest)[1..] == rest;
        KeysOfCons(rows[0], rest);
        [rows[0]] + rest
  }

  lemma KeysOfCons(r: CalendarRow, rest: seq<CalendarRow>)
    ensures KeysOf([r] + rest) == {KeyOf(r)} + KeysOf(rest)
  {
    var s := [r] + rest;
    forall x | x in rest ensures x in s {
      var i :| 0 <= i < |rest| && rest[i] == x;
      assert s[i + 1] == x;
    }
  }

  /** `drop_duplicates(subset=["startDate", "startTime", "caption"])`: the first row of each key, in order. */
  function Dedup(rows: seq<CalendarRow>): (r: seq<CalendarRow>)
    ensures IsSubsequence(r, rows)
    ensures DistinctKeys(r) && KeysOf(r) == KeysOf(rows)
  {
    DedupFrom(rows, {})
  }

  /** The index of the first row with the key. */
  function FirstIndex(rows: seq<CalendarRow>, k: RowKey): (i: nat)
    requires k in KeysOf(rows)
    ensures i < |rows| && KeyOf(rows[i]) == k
    ensures forall j :: 0 <= j < i ==> KeyOf(rows[j]) != k
    decreases |rows|
  {
    if KeyOf(rows[0]) == k then 0
    else
      KeysOfCons(rows[0], rows[1..]);
      assert rows == [rows[0]] + rows[1..];
      1 + FirstIndex(rows[1..], k)
  }

  /** Every kept row is the first row of its key. */
  lemma {:induction false} DedupFromKeepsFirst(rows: seq<CalendarRow>, seen: set<RowKey>)
    ensures forall r :: r in DedupFrom(rows, seen) ==>
      KeyOf(r) in KeysOf(rows) && r == rows[FirstIndex(rows, KeyOf(r))]
    decreases |rows|
  {
    if rows != [] {
      var k := KeyOf(rows[0]);
      var s' := if k in seen then seen else seen + {k};
      DedupFromKeepsFirst(rows[1..], s');
      forall r | r in DedupFrom(rows, seen)
        ensures KeyOf(r) in KeysOf(rows) && r == rows[FirstIndex(rows, KeyOf(r))]
      {
        assert KeyOf(r) in KeysOf(rows);
        if r in DedupFrom(rows[1..], s') {
          assert KeyOf(r) != k;
          assert FirstIndex(rows, KeyOf(r)) == 1 + FirstIndex(rows[1..], KeyOf(r));
        } else {
          assert r == rows[0];
        }
      }
    }
  }

  /** Rows with pairwise distinct keys, none already seen, are all kept. */
  lemma {:induction false} DedupFromDistinct(rows: seq<CalendarRow>, seen: set<RowKey>)
    requires DistinctKeys(rows)
    requires forall r :: r in rows ==> KeyOf(r) !in seen
    ensures DedupFrom(rows, seen) == rows
    decreases |rows|
  {
    if rows != [] {
      var k := KeyOf(rows[0]);
      forall r | r in rows[1..]
        ensures KeyOf(r) !in seen + {k}
      {
        var j :| 0 <= j < |rows[1..]| && rows[1..][j] == r;
        assert rows[j + 1] == r;
      }
      DedupFromDistinct(rows[1..], seen + {k});
    }
  }

  /** Kept rows stand in the order in which their keys first occur. */
  lemma {:induction false} DedupFromOrdered(rows: seq<CalendarRow>, seen: set<RowKey>)
    ensures forall i, j :: 0 <= i < j < |DedupFrom(rows, seen)| ==>
      && KeyOf(DedupFrom(rows, seen)[i]) in KeysOf(rows)
      && KeyOf(DedupFrom(rows, seen)[j]) in KeysOf(rows)
      && FirstIndex(rows, KeyOf(DedupFrom(rows, seen)[i])) < FirstIndex(rows, KeyOf(DedupFrom(rows, seen)[j]))
    decreases |rows|
  {
    if rows != [] {
      var k := KeyOf(rows[0]);
      var s' := if k in seen then seen else seen + {k};
      var rest := DedupFrom(rows[1..], s');
      var out := DedupFrom(rows, seen);
      DedupFromOrdered(rows[1..], s');
      KeysOfCons(rows[0], rows[1..]);
      assert rows == [rows[0]] + rows[1..];
      // A key kept from the tail is not the head's key, so its first index shifts by one.
      forall r | r in rest
        ensures KeyOf(r) != k && KeyOf(r) in KeysOf(rows[1..])
        ensures FirstIndex(rows, KeyOf(r)) == 1 + FirstIndex(rows[1..], KeyOf(r))
      {
        assert KeyOf(r) in KeysOf(rest);
      }
      forall i, j | 0 <= i < j < |out|
        ensures && KeyOf(out[i]) in KeysOf(rows)
                && KeyOf(out[j]) in KeysOf(rows)
                && FirstIndex(rows, KeyOf(out[i])) < FirstIndex(rows, KeyOf(out[j]))
      {
        if k in seen {
          assert out == rest;
          assert out[i] in rest && out[j] in rest;
        } else {
          assert out == [rows[0]] + rest;
          assert out[j] == rest[j - 1] && out[j] in rest;
          if i > 0 {
            assert out[i] == rest[i - 1] && out[i] in rest;
          }
        }
      }
    } else {
      assert DedupFrom(rows, seen) == [];
    }
  }

  /**
   * Removing duplicates keeps, in order, exactly the first row of each key: the result is a
   * subsequence with no two rows sharing a key, it covers every key, each row in it is the
   * first of its key, the kept rows follow the order of their keys' first occurrences, it is no
   * longer than the input, and doing it again changes nothing.
   */
  lemma DedupSpec(rows: seq<CalendarRow>)
    ensures IsSubsequence(Dedup(rows), rows) && |Dedup(rows)| <= |rows|
    ensures DistinctKeys(Dedup(rows))
    ensures KeysOf(Dedup(rows)) == KeysOf(rows)
    ensures forall r :: r in Dedup(rows) ==> KeyOf(r) in KeysOf(rows) && r == rows[FirstIndex(rows, KeyOf(r))]
    ensures forall i, j :: 0 <= i < j < |Dedup(rows)| ==>
      && KeyOf(Dedup(rows)[i]) in KeysOf(rows)
      && KeyOf(Dedup(rows)[j]) in KeysOf(rows)
      && FirstIndex(rows, KeyOf(Dedup(rows)[i])) < FirstIndex(rows, KeyOf(Dedup(rows)[j]))
    ensures Dedup(Dedup(rows)) == Dedup(rows)
  {
    DedupFromOrdered(rows, {});
    DedupFromKeepsFirst(rows, {});
    DedupFromDistinct(Dedup(rows), {});
  }

  // ---------------------------------------------------------------- the page

  /** The frame has a "startTime" column iff some record received a start time. */
  predicate HasStartTimeColumn(data: seq<CalendarRow>)
  {
    exists r :: r in data && r.startTime.Some?
  }

  /**
   * The page's `df` after a run: `None` unless a calendar is selected and an appointment
   * survives the filter; otherwise the projected rows, de-duplicated when asked to.
   * `appointments` is what the client returns for the selected calendars.
   */
  function CalendarTable(selected: seq<Calendar>, appointments: seq<Appointment>,
                         hideRegular: bool, removeDuplicates: bool,
                         formatDate: Instant -> string, formatTime: Instant -> string)
    : (r: Result<Option<seq<CalendarRow>>, PageError>)
    ensures r.Err? ==> removeDuplicates && r.error == MissingColumn("startTime")
    ensures r.Ok? && r.value.Some? ==> 0 < |r.value.value| <= |appointments|
  {
    if |selected| == 0 then Ok(None)
    else
      var shown := if hideRegular then HideRegularServices(appointments) else appointments;
      if |shown| == 0 then Ok(None)
      else
        var data := seq(|shown|, i requires 0 <= i < |shown| => ProjectRow(shown[i], formatDate, formatTime));
        if !removeDuplicates then Ok(Some(data))
        else if !HasStartTimeColumn(data) then Err(MissingColumn("startTime"))
        else Ok(Some(Dedup(data)))
  }

  /**
   * When the page has a table and when it fails: no table without a selected calendar or
   * without a surviving appointment; removing duplicates fails exactly when every surviving
   * appointment is all-day; a table is never empty and, de-duplicated, has distinct keys.
   */
  lemma CalendarTableGating(selected: seq<Calendar>, appointments: seq<Appointment>,
                            hideRegular: bool, removeDuplicates: bool,
                            formatDate: Instant -> string, formatTime: Instant -> string)
    ensures var shown := if hideRegular then HideRegularServices(appointments) else appointments;
      var t := CalendarTable(selected, appointments, hideRegular, removeDuplicates, formatDate, formatTime);
      && (t == Ok(None) <==> |selected| == 0 || |shown| == 0)
      && (t.Err? <==> |selected| > 0 && |shown| > 0 && removeDuplicates && forall a :: a in shown ==> a.allDay)
      && (t.Ok? && t.value.Some? ==> 0 < |t.value.value| <= |shown|)
      && (t.Ok? && t.value.Some? && removeDuplicates ==> DistinctKeys(t.value.value))
      && (t.Ok? && t.value.Some? && !removeDuplicates ==> |t.value.value| == |shown|)
  {
    var shown := if hideRegular then HideRegularServices(appointments) else appointments;
    if |selected| > 0 && |shown| > 0 {
      var data := seq(|shown|, i requires 0 <= i < |shown| => ProjectRow(shown[i], formatDate, formatTime));
      assert HasStartTimeColumn(data) <==> exists a :: a in shown && !a.allDay by {
        if a :| a in shown && !a.allDay {
          var i :| 0 <= i < |shown| && shown[i] == a;
          assert data[i] in data;
        }
        if r :| r in data && r.startTime.Some? {
          var i :| 0 <= i < |data| && data[i] == r;
          assert shown[i] in shown;
        }
      }
      if removeDuplicates && HasStartTimeColumn(data) {
        DedupSpec(data);
        assert data[0] in data;
        assert KeyOf(data[0]) in KeysOf(Dedup(data));
      }
    }
  }

  /**
   * The page run: `df` as above, and whether the export is started, which happens only when the
   * button is pressed and `df` is not `None`.
   */
  method RunCalendarPage(selected: seq<Calendar>, appointments: seq<Appointment>,
                         hideRegular: bool, removeDuplicates: bool, exportPressed: bool,
                         formatDate: Instant -> string, formatTime: Instant -> string)
    returns (df: Result<Option<seq<CalendarRow>>, PageError>, startExport: bool)
    ensures df == CalendarTable(selected, appointments, hideRegular, removeDuplicates, formatDate, formatTime)
    ensures startExport <==> exportPressed && df.Ok? && df.value.Some?
  {
    df := Ok(None);
    if |selected| > 0 {
      var shown := appointments;
      if hideRegular {
        shown := HideRegularServices(shown);
      }
      if |shown| > 0 {
        var data := ProjectRows(shown, formatDate, formatTime);
        assert data == seq(|shown|, i requires 0 <= i < |shown| => ProjectRow(shown[i], formatDate, formatTime));
        if removeDuplicates {
          if HasStartTimeColumn(data) {
            data := Dedup(data);
            df := Ok(Some(data));
          } else {
            df := Err(MissingColumn("startTime"));
          }
        } else {
          df := Ok(Some(data));
        }
      }
    }
    startExport := exportPressed && df.Ok? && df.value.Some?;
  }
}
