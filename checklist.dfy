/** The checklist routes of `routes/checklist.js`: the deadline of the next
    instance of a recurring checklist, and the create, list, mark-done and
    delete handlers on the signed-in employee's `<name>_Checklist` sheet,
    whose columns are ChecklistID, ChecklistName, CreatedDate, Deadline,
    DoneDate, Status and Format. */
module Checklist {
  import opened Http
  import opened Calendar
  import opened IsoTime
  import opened Sheets

  const MissingFields: Error := Error(400, "ChecklistName and Format are required")
  const NotFound: Error := Error(404, "Checklist not found")

  /** `${req.user.name}_Checklist`. */
  function SheetOf(user: string): string
  {
    user + "_Checklist"
  }

  /** The date `getNextDeadline(format)` computes from today's date: one day
      later for Daily, seven for Weekly, `setMonth(+1)` for Monthly, and
      today itself for any other format (an undefined one included). */
  function NextDeadline(format: Option<string>, today: Date): (d: Date)
    requires ValidDate(today)
    ensures ValidDate(d) && today.year <= d.year <= today.year + 1
    ensures format !in {Some("Daily"), Some("Weekly"), Some("Monthly")} ==> d == today
  {
    if format == Some("Daily") then NextDay(today)
    else if format == Some("Weekly") then WeekAhead(today); AddDays(today, 7)
    else if format == Some("Monthly") then MonthAhead(today); AddMonth(today)
    else today
  }

  /** How far the deadline of each recurring format lies from today: one
      day, seven days, or the same day counted from the first of the next
      month; always strictly later. */
  lemma NextDeadlineDistance(format: Option<string>, today: Date)
    requires ValidDate(today)
    ensures var d := NextDeadline(format, today);
      && (format == Some("Daily") ==> DayNumber(d) == DayNumber(today) + 1)
      && (format == Some("Weekly") ==> DayNumber(d) == DayNumber(today) + 7)
      && (format == Some("Monthly") ==> DayNumber(d) == DayNumber(FirstOfNextMonth(today)) + today.day - 1)
      && (format in {Some("Daily"), Some("Weekly"), Some("Monthly")} ==> DayNumber(today) < DayNumber(d))
  {
    if format == Some("Daily") {
      NextDayCount(today);
    } else if format == Some("Weekly") {
      WeekAhead(today);
    } else if format == Some("Monthly") {
      MonthAhead(today);
    }
  }

  /** Seven days ahead lies in the same or the next year. */
  lemma WeekAhead(today: Date)
    requires ValidDate(today)
    ensures var d := AddDays(today, 7);
      today.year <= d.year <= today.year + 1 && DayNumber(d) == DayNumber(today) + 7
  {
    AddDaysCount(today, 7);
    YearsApart(today, AddDays(today, 7));
  }

  /** The same day of the next month lies in the same or the next year. */
  lemma MonthAhead(today: Date)
    requires ValidDate(today)
    ensures var d := AddMonth(today);
      && today.year <= d.year <= today.year + 1
      && DayNumber(d) == DayNumber(FirstOfNextMonth(today)) + today.day - 1
      && DayNumber(today) < DayNumber(d)
  {
    AddMonthCount(today);
    YearsApart(today, AddMonth(today));
  }

  /** `new Date().toISOString().split("T")[0]`: today's date as text. */
  function Today(now: Clock): string
    requires ValidClock(now)
  {
    FormatDate(now.today)
  }

  /** The text `getNextDeadline(format)` returns: the date part of the
      shifted clock's ISO string. */
  function DeadlineText(format: Option<string>, now: Clock): string
    requires ValidClock(now)
  {
    FormatDate(NextDeadline(format, now.today))
  }

  /** The deadline text reads back as the date of the next deadline. */
  lemma DeadlineTextParses(format: Option<string>, now: Clock)
    requires ValidClock(now)
    ensures ParseDate(DeadlineText(format, now)) == Some(NextDeadline(format, now.today))
  {
    DateRoundTrip(NextDeadline(format, now.today));
  }

  /** A format is read only for the three names it compares against, so an
      undefined format and an empty one give the same deadline. */
  lemma DeadlineOfWrittenFormat(format: Option<string>, now: Clock)
    requires ValidClock(now)
    ensures DeadlineText(Some(Text(format)), now) == DeadlineText(format, now)
  {
  }

  /** A new, not yet done checklist row. */
  function PendingRow(id: string, name: string, created: string, deadline: string, format: string): Row
  {
    [id, name, created, deadline, "", "Pending", format]
  }

  /** One checklist as the GET route returns it; an undefined field is
      left out of the JSON. */
  datatype Item = Item(
    id: Option<string>, name: Option<string>, created: Option<string>, deadline: Option<string>,
    doneDate: Option<string>, status: Option<string>, format: Option<string>)

  function ItemOf(r: Row): Item
  {
    Item(Cell(r, 0), Cell(r, 1), Cell(r, 2), Cell(r, 3), Cell(r, 4), Cell(r, 5), Cell(r, 6))
  }

  function Fields(it: Item): seq<Option<string>>
  {
    [it.id, it.name, it.created, it.deadline, it.doneDate, it.status, it.format]
  }

  /** Every cell of a stored row of columns A to G reaches the response. */
  lemma ItemKeepsRow(r: Row)
    requires |r| <= 7
    ensures Restore(Fields(ItemOf(r))) == r
  {
    assert Fields(ItemOf(r)) == Project(r, 7);
    RestoreProject(r, 7);
  }

  /** GET `/`: every data row, projected field by field, in sheet order. */
  method List(store: Store, user: string) returns (res: Result<seq<Item>>)
    ensures SheetOf(user) !in store.sheets ==> res == Err(StoreFailure)
    ensures SheetOf(user) in store.sheets ==>
      var rows := store.sheets[SheetOf(user)].data;
      res.Ok? && |res.value| == |rows| && forall k :: 0 <= k < |rows| ==> res.value[k] == ItemOf(rows[k])
  {
    var fetched := store.Get(SheetOf(user));
    if fetched.Err? {
      return Err(fetched.error);
    }
    var rows := fetched.value;
    res := Ok(seq(|rows|, k requires 0 <= k < |rows| => ItemOf(rows[k])));
  }

  datatype Created = Created(id: string, deadline: string)

  /** POST `/`: both the name and the format are required; the deadline is
      the caller's when it is non-empty, else the computed one. */
  method Create(store: Store, user: string, name: Option<string>, format: Option<string>,
                deadline: Option<string>, id: string, now: Clock) returns (res: Result<Created>)
    requires ValidClock(now)
    modifies store
    ensures !Present(name) || !Present(format) ==> res == Err(MissingFields) && store.sheets == old(store.sheets)
    ensures Present(name) && Present(format) && SheetOf(user) !in old(store.sheets) ==>
      res == Err(StoreFailure) && store.sheets == old(store.sheets)
    ensures Present(name) && Present(format) && SheetOf(user) in old(store.sheets) ==>
      var final := OrElse(deadline, DeadlineText(format, now));
      res == Ok(Created(id, final))
      && store.sheets == AppendTo(old(store.sheets), SheetOf(user), [PendingRow(id, name.value, Today(now), final, format.value)])
  {
    if !Present(name) || !Present(format) {
      return Err(MissingFields);
    }
    var final := OrElse(deadline, DeadlineText(format, now));
    var ok := store.Append(SheetOf(user), [PendingRow(id, name.value, Today(now), final, format.value)]);
    if !ok {
      return Err(StoreFailure);
    }
    res := Ok(Created(id, final));
  }

  /** PATCH `/done/:id`: the found row gets the current time in DoneDate and
      "Done" in Status; nothing is appended. The reply carries the time. */
  method MarkDone(store: Store, user: string, id: string, now: Clock) returns (res: Result<string>)
    requires ValidClock(now)
    modifies store
    ensures SheetOf(user) !in old(store.sheets) ==> res == Err(StoreFailure) && store.sheets == old(store.sheets)
    ensures SheetOf(user) in old(store.sheets) ==>
      var rows := old(store.sheets)[SheetOf(user)].data;
      var idx := FindIndex(rows, id);
      if idx == -1 then res == Err(NotFound) && store.sheets == old(store.sheets)
      else
        res == Ok(FormatTimestamp(now))
        && store.sheets == ReplaceAt(old(store.sheets), SheetOf(user), idx, MarkedDone(rows[idx], FormatTimestamp(now)))
  {
    var fetched := store.Get(SheetOf(user));
    if fetched.Err? {
      return Err(fetched.error);
    }
    var rows := fetched.value;
    var idx := FindIndex(rows, id);
    if idx == -1 {
      return Err(NotFound);
    }
    var row := MarkedDone(rows[idx], FormatTimestamp(now));
    store.Update(SheetOf(user), idx + 2, row);
    res := Ok(row[4]);
  }

  /** DELETE `/:id`: the found row is blanked in place. */
  method Delete(store: Store, user: string, id: string) returns (res: Result<()>)
    modifies store
    ensures SheetOf(user) !in old(store.sheets) ==> res == Err(StoreFailure) && store.sheets == old(store.sheets)
    ensures SheetOf(user) in old(store.sheets) ==>
      var idx := FindIndex(old(store.sheets)[SheetOf(user)].data, id);
      if idx == -1 then res == Err(NotFound) && store.sheets == old(store.sheets)
      else res == Ok(()) && store.sheets == ClearAt(old(store.sheets), SheetOf(user), idx)
  {
    var fetched := store.Get(SheetOf(user));
    if fetched.Err? {
      return Err(fetched.error);
    }
    var idx := FindIndex(fetched.value, id);
    if idx == -1 {
      return Err(NotFound);
    }
    store.Clear(SheetOf(user), idx + 2);
    res := Ok(());
  }

  /** Marking a checklist done changes exactly its DoneDate and Status
      cells: every other cell of that row, every other row, the header and
      every other sheet keep their values, and the row is still found under
      its identifier. */
  lemma DoneTouchesOnlyStampColumns(m: map<string, Sheet>, user: string, id: string, stamp: string)
    requires SheetOf(user) in m && FindIndex(m[SheetOf(user)].data, id) != -1
    ensures var rows := m[SheetOf(user)].data;
      var idx := FindIndex(rows, id);
      var m' := ReplaceAt(m, SheetOf(user), idx, MarkedDone(rows[idx], stamp));
      var after := m'[SheetOf(user)].data;
      && m'.Keys == m.Keys
      && (forall n :: n in m && n != SheetOf(user) ==> m'[n] == m[n])
      && m'[SheetOf(user)].header == m[SheetOf(user)].header
      && |after| == |rows|
      && (forall k :: 0 <= k < |rows| && k != idx ==> after[k] == rows[k])
      && Cell(after[idx], 4) == Some(stamp) && Cell(after[idx], 5) == Some("Done")
      && (forall j: nat :: j != 4 && j != 5 && j < |rows[idx]| ==> Cell(after[idx], j) == Cell(rows[idx], j))
      && FindIndex(after, id) == idx
  {
    var rows := m[SheetOf(user)].data;
    var idx := FindIndex(rows, id);
    ReplaceKeepsLookup(rows, idx, MarkedDone(rows[idx], stamp), id);
  }
}
