/** The delegation routes of `routes/delegations.js` on the signed-in
    employee's `<name>_Delegations` sheet, whose columns are TaskID,
    TaskName, CreatedDate, Deadline, DoneDate, Status, Priority and Notes:
    a listing that hides tasks done more than six hours ago, and the
    create, start, done and delete handlers. */
module Delegations {
  import opened Http
  import opened IsoTime
  import opened Sheets

  const NotFound: Error := Error(404, "Task not found")

  /** How long a done task stays in the listing: `6 * 3600 * 1000` milliseconds. */
  const DoneWindow := 6 * 3600 * 1000

  /** `${req.user.name}_Delegations`. */
  function SheetOf(user: string): string
  {
    user + "_Delegations"
  }

  /** The listing's filter at time `nowMs`: pending and started tasks are
      always shown, a done task while its done time is at most six hours old
      (an unreadable done time is NaN, and a comparison with NaN is false),
      any other status never. */
  predicate Visible(r: Row, nowMs: int)
  {
    if Cell(r, 5) == Some("Pending") || Cell(r, 5) == Some("In Progress") then true
    else if Cell(r, 5) == Some("Done") then
      match ParseCell(Cell(r, 4))
      case Some(doneTime) => nowMs - doneTime <= DoneWindow
      case None => false
    else false
  }

  /** One task as the listing returns it; an undefined field is left out of the JSON. */
  datatype Task = Task(
    id: Option<string>, name: Option<string>, created: Option<string>, deadline: Option<string>,
    doneDate: Option<string>, status: Option<string>, priority: Option<string>, notes: Option<string>)

  function TaskOf(r: Row): Task
  {
    Task(Cell(r, 0), Cell(r, 1), Cell(r, 2), Cell(r, 3), Cell(r, 4), Cell(r, 5), Cell(r, 6), Cell(r, 7))
  }

  function Fields(t: Task): seq<Option<string>>
  {
    [t.id, t.name, t.created, t.deadline, t.doneDate, t.status, t.priority, t.notes]
  }

  /** Every cell of a stored row of columns A to H reaches the listing. */
  lemma TaskKeepsRow(r: Row)
    requires |r| <= 8
    ensures Restore(Fields(TaskOf(r))) == r
  {
    assert Fields(TaskOf(r)) == Project(r, 8);
    RestoreProject(r, 8);
  }

  /** `rows.filter(Visible).map(TaskOf)`. */
  function Listing(rows: seq<Row>, nowMs: int): (tasks: seq<Task>)
    ensures |tasks| <= |rows|
  {
    if rows == [] then []
    else
      var last := rows[|rows| - 1];
      Listing(rows[..|rows| - 1], nowMs) + (if Visible(last, nowMs) then [TaskOf(last)] else [])
  }

  /** The listing keeps the order of the sheet: listing a table split in two
      lists the first part, then the second. */
  lemma {:induction false} ListingAppend(a: seq<Row>, b: seq<Row>, nowMs: int)
    ensures Listing(a + b, nowMs) == Listing(a, nowMs) + Listing(b, nowMs)
    decreases |b|
  {
    if b == [] {
      assert a + b == a;
    } else {
      var c := a + b;
      assert c[..|c| - 1] == a + b[..|b| - 1];
      assert c[|c| - 1] == b[|b| - 1];
      ListingAppend(a, b[..|b| - 1], nowMs);
    }
  }

  /** A task is listed exactly when some visible row projects to it. */
  lemma {:induction false} ListingMembers(rows: seq<Row>, nowMs: int, t: Task)
    ensures t in Listing(rows, nowMs) <==> exists k :: 0 <= k < |rows| && Visible(rows[k], nowMs) && TaskOf(rows[k]) == t
    decreases |rows|
  {
    if rows != [] {
      var init := rows[..|rows| - 1];
      ListingMembers(init, nowMs, t);
      assert forall k :: 0 <= k < |init| ==> init[k] == rows[k];
    }
  }

  /** Every listed task is pending or started, or done at most six hours
      before `nowMs` according to its own DoneDate. */
  lemma ListedStatuses(rows: seq<Row>, nowMs: int, t: Task)
    requires t in Listing(rows, nowMs)
    ensures t.status == Some("Pending") || t.status == Some("In Progress") || t.status == Some("Done")
    ensures t.status == Some("Done") ==> ParseCell(t.doneDate).Some? && nowMs - ParseCell(t.doneDate).value <= DoneWindow
  {
    ListingMembers(rows, nowMs, t);
  }

  /** A task marked done at `now` stays listed up to six hours after `now`, and not a moment longer. */
  lemma DoneListedForSixHours(row: Row, now: Clock, laterMs: int)
    requires ValidClock(now)
    ensures Visible(MarkedDone(row, FormatTimestamp(now)), laterMs) <==> laterMs - Millis(now) <= DoneWindow
  {
    TimestampRoundTrip(now);
  }

  /** A started task is listed at every time. */
  lemma StartedAlwaysListed(row: Row, nowMs: int)
    ensures Visible(SetCell(row, 5, "In Progress"), nowMs)
  {
  }

  /** GET `/`: the visible tasks of the sheet, in sheet order. */
  method List(store: Store, user: string, now: Clock) returns (res: Result<seq<Task>>)
    requires ValidClock(now)
    ensures SheetOf(user) !in store.sheets ==> res == Err(StoreFailure)
    ensures SheetOf(user) in store.sheets ==> res == Ok(Listing(store.sheets[SheetOf(user)].data, Millis(now)))
  {
    var fetched := store.Get(SheetOf(user));
    if fetched.Err? {
      return Err(fetched.error);
    }
    res := Ok(Listing(fetched.value, Millis(now)));
  }

  /** The row POST `/` appends; undefined body fields are written empty. */
  function NewTask(id: string, name: Option<string>, created: string, deadline: Option<string>,
                   priority: Option<string>, notes: Option<string>): Row
  {
    [id, Text(name), created, Text(deadline), "", "Pending", Text(priority), Text(notes)]
  }

  /** POST `/`: append a pending task; no field is checked. */
  method Create(store: Store, user: string, name: Option<string>, deadline: Option<string>,
                priority: Option<string>, notes: Option<string>, id: string, now: Clock) returns (res: Result<string>)
    requires ValidClock(now)
    modifies store
    ensures SheetOf(user) !in old(store.sheets) ==> res == Err(StoreFailure) && store.sheets == old(store.sheets)
    ensures SheetOf(user) in old(store.sheets) ==>
      res == Ok(id)
      && store.sheets == AppendTo(old(store.sheets), SheetOf(user),
           [NewTask(id, name, FormatTimestamp(now), deadline, priority, notes)])
  {
    var ok := store.Append(SheetOf(user), [NewTask(id, name, FormatTimestamp(now), deadline, priority, notes)]);
    if !ok {
      return Err(StoreFailure);
    }
    res := Ok(id);
  }

  /** A created task is listed at once and at every later time while it is pending. */
  lemma CreatedIsListed(id: string, name: Option<string>, created: string, deadline: Option<string>,
                        priority: Option<string>, notes: Option<string>, nowMs: int)
    ensures var row := NewTask(id, name, created, deadline, priority, notes);
      Listing([row], nowMs) == [TaskOf(row)]
      && TaskOf(row).id == Some(id) && TaskOf(row).status == Some("Pending") && TaskOf(row).doneDate == Some("")
  {
    ListingSingle(NewTask(id, name, created, deadline, priority, notes), nowMs);
  }

  /** PATCH `/start/:id`: the found task's Status becomes "In Progress",
      whatever it was. */
  method Start(store: Store, user: string, id: string) returns (res: Result<()>)
    modifies store
    ensures SheetOf(user) !in old(store.sheets) ==> res == Err(StoreFailure) && store.sheets == old(store.sheets)
    ensures SheetOf(user) in old(store.sheets) ==>
      var rows := old(store.sheets)[SheetOf(user)].data;
      var idx := FindIndex(rows, id);
      if idx == -1 then res == Err(NotFound) && store.sheets == old(store.sheets)
      else res == Ok(()) && store.sheets == ReplaceAt(old(store.sheets), SheetOf(user), idx, SetCell(rows[idx], 5, "In Progress"))
  {
    var fetched := store.Get(SheetOf(user));
    if fetched.Err? {
      return Err(fetched.error);
    }
    var rows := fetched.value;
    var idx := FindIndex(rows, id);
    if idx == -1 {
      return Err(NotFound);
    }
    store.Update(SheetOf(user), idx + 2, SetCell(rows[idx], 5, "In Progress"));
    res := Ok(());
  }

  /** PATCH `/done/:id`: the found task gets the current time in DoneDate
      and "Done" in Status. */
  method Done(store: Store, user: string, id: string, now: Clock) returns (res: Result<()>)
    requires ValidClock(now)
    modifies store
    ensures SheetOf(user) !in old(store.sheets) ==> res == Err(StoreFailure) && store.sheets == old(store.sheets)
    ensures SheetOf(user) in old(store.sheets) ==>
      var rows := old(store.sheets)[SheetOf(user)].data;
      var idx := FindIndex(rows, id);
      if idx == -1 then res == Err(NotFound) && store.sheets == old(store.sheets)
      else res == Ok(()) && store.sheets == ReplaceAt(old(store.sheets), SheetOf(user), idx, MarkedDone(rows[idx], FormatTimestamp(now)))
  {
    var fetched := store.Get(SheetOf(user));
    if fetched.Err? {
      return Err(fetched.error);
    }
    var rows := fetched.value;
    var idx := FindIndex(rows, id);
    if idx == -1 {
      return Err(NotFound);
    }
    store.Update(SheetOf(user), idx + 2, MarkedDone(rows[idx], FormatTimestamp(now)));
    res := Ok(());
  }

  /** DELETE `/:id`: the found task's row is blanked in place. */
  method Delete(store: Store, user: string, id: string) returns (res: Result<()>)
    modifies store
    ensures SheetOf(user) !in old(store.sheets) ==> res == Err(StoreFailure) && store.sheets == old(store.sheets)
    ensures SheetOf(user) in old(store.sheets) ==>
      var idx := FindIndex(old(store.sheets)[SheetOf(user)].data, id);
      if idx == -1 then res == Err(NotFound) && store.sheets == old(store.sheets)
      else res == Ok(()) && store.sheets == ClearAt(old(store.sheets), SheetOf(user), idx)
  {
    var fetched := store.Get(SheetOf(user));
    if fetched.Err? {
      return Err(fetched.error);
    }
    var idx := FindIndex(fetched.value, id);
    if idx == -1 {
      return Err(NotFound);
    }
    store.Clear(SheetOf(user), idx + 2);
    res := Ok(());
  }

  /** Listing a table with one row rewritten lists the rows before it, the
      new row, then the rows after it. */
  lemma ListingReplace(rows: seq<Row>, i: int, row: Row, nowMs: int)
    requires 0 <= i < |rows|
    ensures Listing(rows[i := row], nowMs) == Listing(rows[..i], nowMs) + Listing([row], nowMs) + Listing(rows[i + 1..], nowMs)
  {
    assert rows[i := row] == rows[..i] + [row] + rows[i + 1..];
    ListingAppend(rows[..i] + [row], rows[i + 1..], nowMs);
    ListingAppend(rows[..i], [row], nowMs);
  }

  lemma ListingSingle(row: Row, nowMs: int)
    ensures Listing([row], nowMs) == if Visible(row, nowMs) then [TaskOf(row)] else []
  {
    assert [row][..0] == [];
  }

  /** Starting a task keeps every other cell of its row, keeps it found
      under its identifier, and keeps it in the listing at its place. */
  lemma StartEffects(rows: seq<Row>, id: string, nowMs: int)
    requires FindIndex(rows, id) != -1
    ensures var idx := FindIndex(rows, id);
      var after := rows[idx := SetCell(rows[idx], 5, "In Progress")];
      && FindIndex(after, id) == idx
      && (forall j: nat :: j != 5 && j < |rows[idx]| ==> Cell(after[idx], j) == Cell(rows[idx], j))
      && Listing(after, nowMs) == Listing(rows[..idx], nowMs) + [TaskOf(after[idx])] + Listing(rows[idx + 1..], nowMs)
  {
    var idx := FindIndex(rows, id);
    var row := SetCell(rows[idx], 5, "In Progress");
    ReplaceKeepsLookup(rows, idx, row, id);
    ListingReplace(rows, idx, row, nowMs);
    ListingSingle(row, nowMs);
  }

  /** A deleted task leaves the listing; every other task stays in place. */
  lemma DeleteHidesTask(rows: seq<Row>, i: int, nowMs: int)
    requires 0 <= i < |rows|
    ensures Listing(rows[i := []], nowMs) == Listing(rows[..i], nowMs) + Listing(rows[i + 1..], nowMs)
  {
    ListingReplace(rows, i, [], nowMs);
    ListingSingle([], nowMs);
  }
}
