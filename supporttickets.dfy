/** The support-ticket routes of `routes/supportTickets.js` on the shared
    `SupportTickets` sheet, whose columns are TicketID, EmployeeName, Issue,
    CreatedDate, Status and ResolvedDate. */
module SupportTickets {
  import opened Http
  import opened IsoTime
  import opened Sheets

  const SheetName := "SupportTickets"
  const NotFound: Error := Error(404, "Ticket not found")

  /** One ticket as GET `/` returns it; an undefined field is left out of the JSON. */
  datatype Ticket = Ticket(
    id: Option<string>, employee: Option<string>, issue: Option<string>,
    created: Option<string>, status: Option<string>, resolved: Option<string>)

  function TicketOf(r: Row): Ticket
  {
    Ticket(Cell(r, 0), Cell(r, 1), Cell(r, 2), Cell(r, 3), Cell(r, 4), Cell(r, 5))
  }

  function Fields(t: Ticket): seq<Option<string>>
  {
    [t.id, t.employee, t.issue, t.created, t.status, t.resolved]
  }

  /** Every cell of a stored row of columns A to F reaches the response. */
  lemma TicketKeepsRow(r: Row)
    requires |r| <= 6
    ensures Restore(Fields(TicketOf(r))) == r
  {
    assert Fields(TicketOf(r)) == Project(r, 6);
    RestoreProject(r, 6);
  }

  /** GET `/`: every row of the sheet, projected field by field, in sheet order. */
  method List(store: Store) returns (res: Result<seq<Ticket>>)
    ensures SheetName !in store.sheets ==> res == Err(StoreFailure)
    ensures SheetName in store.sheets ==>
      var rows := store.sheets[SheetName].data;
      res.Ok? && |res.value| == |rows| && forall k :: 0 <= k < |rows| ==> res.value[k] == TicketOf(rows[k])
  {
    var fetched := store.Get(SheetName);
    if fetched.Err? {
      return Err(fetched.error);
    }
    var rows := fetched.value;
    res := Ok(seq(|rows|, k requires 0 <= k < |rows| => TicketOf(rows[k])));
  }

  /** The row POST `/` appends; undefined body fields are written empty. */
  function NewTicket(id: string, employee: Option<string>, issue: Option<string>, created: string): Row
  {
    [id, Text(employee), Text(issue), created, "Open", ""]
  }

  /** POST `/`: append an open ticket; no field is checked. */
  method Create(store: Store, employee: Option<string>, issue: Option<string>, id: string, now: Clock)
    returns (res: Result<string>)
    requires ValidClock(now)
    modifies store
    ensures SheetName !in old(store.sheets) ==> res == Err(StoreFailure) && store.sheets == old(store.sheets)
    ensures SheetName in old(store.sheets) ==>
      res == Ok(id) && store.sheets == AppendTo(old(store.sheets), SheetName, [NewTicket(id, employee, issue, FormatTimestamp(now))])
  {
    var ok := store.Append(SheetName, [NewTicket(id, employee, issue, FormatTimestamp(now))]);
    if !ok {
      return Err(StoreFailure);
    }
    res := Ok(id);
  }

  /** `row[4] = status`, and `row[5]` stamped when the status is "Resolved".
      An undefined status is sent as `null`, which leaves the cell as it was. */
  function StatusUpdate(row: Row, status: Option<string>, stamp: string): (w: Row)
    ensures status.Some? ==> Cell(w, 4) == status
    ensures status.None? ==> w == row
    ensures status == Some("Resolved") ==> Cell(w, 5) == Some(stamp)
    ensures status != Some("Resolved") ==> forall j: nat :: j != 4 ==> Text(Cell(w, j)) == Text(Cell(row, j))
    ensures forall j: nat :: j != 4 && j != 5 ==> Text(Cell(w, j)) == Text(Cell(row, j))
    ensures Cell(w, 0) == Cell(row, 0) || row == []
  {
    var w := WriteCell(row, 4, status);
    if status == Some("Resolved") then SetCell(w, 5, stamp) else w
  }

  /** PATCH `/:id`: the found ticket's Status is overwritten with the
      requested value, whatever it is, and ResolvedDate is stamped when that
      value is "Resolved". */
  method Update(store: Store, id: string, status: Option<string>, now: Clock) returns (res: Result<()>)
    requires ValidClock(now)
    modifies store
    ensures SheetName !in old(store.sheets) ==> res == Err(StoreFailure) && store.sheets == old(store.sheets)
    ensures SheetName in old(store.sheets) ==>
      var rows := old(store.sheets)[SheetName].data;
      var index := FindIndex(rows, id);
      if index == -1 then res == Err(NotFound) && store.sheets == old(store.sheets)
      else res == Ok(()) && store.sheets == ReplaceAt(old(store.sheets), SheetName, index, StatusUpdate(rows[index], status, FormatTimestamp(now)))
  {
    var fetched := store.Get(SheetName);
    if fetched.Err? {
      return Err(fetched.error);
    }
    var rows := fetched.value;
    var index := FindIndex(rows, id);
    if index == -1 {
      return Err(NotFound);
    }
    var row := StatusUpdate(rows[index], status, FormatTimestamp(now));
    store.Update(SheetName, index + 2, row);
    res := Ok(());
  }

  /** An update rewrites only the found ticket: every other row is kept,
      the ticket is still found under its identifier, and its ResolvedDate
      reads back as the update's time exactly when the new status is
      "Resolved" (otherwise it keeps its old value). */
  lemma UpdateEffects(rows: seq<Row>, id: string, status: Option<string>, now: Clock)
    requires ValidClock(now) && FindIndex(rows, id) != -1
    ensures var index := FindIndex(rows, id);
      var after := rows[index := StatusUpdate(rows[index], status, FormatTimestamp(now))];
      && |after| == |rows|
      && (forall k :: 0 <= k < |rows| && k != index ==> after[k] == rows[k])
      && FindIndex(after, id) == index
      && (status == Some("Resolved") ==> ParseCell(Cell(after[index], 5)) == Some(Millis(now)))
      && (status != Some("Resolved") ==> Text(Cell(after[index], 5)) == Text(Cell(rows[index], 5)))
  {
    var index := FindIndex(rows, id);
    var row := StatusUpdate(rows[index], status, FormatTimestamp(now));
    ReplaceKeepsLookup(rows, index, row, id);
    TimestampRoundTrip(now);
  }

  /** A ticket created and then resolved carries its creation time, the
      status "Resolved" and the time it was resolved. */
  lemma CreateThenResolve(id: string, employee: Option<string>, issue: Option<string>, created: Clock, resolved: Clock)
    requires ValidClock(created) && ValidClock(resolved)
    ensures var row := StatusUpdate(NewTicket(id, employee, issue, FormatTimestamp(created)), Some("Resolved"), FormatTimestamp(resolved));
      && TicketOf(row).id == Some(id)
      && TicketOf(row).status == Some("Resolved")
      && ParseCell(TicketOf(row).created) == Some(Millis(created))
      && ParseCell(TicketOf(row).resolved) == Some(Millis(resolved))
  {
    TimestampRoundTrip(created);
    TimestampRoundTrip(resolved);
  }
}
