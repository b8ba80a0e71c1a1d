/** The help-ticket routes of `routes/helpTickets.js`. A ticket lives in two
    copies, one on the `<name>_HelpTickets` sheet of its creator and one on
    that of its assignee; the columns are TicketID, Issue, CreatedBy,
    AssignedTo, CreatedDate, DoneDate, Status and Notes. The assignee moves a
    ticket between Open and InProgress, the creator closes an InProgress
    ticket as Done, and a permitted change is written to the first row
    carrying the ticket on each of the two sheets. */
module HelpTickets {
  import opened Http
  import opened IsoTime
  import opened Sheets

  const MissingFields: Error := Error(400, "Required fields missing")
  const NotFound: Error := Error(404, "Ticket not found")
  const Forbidden: Error := Error(403, "Not authorized to update status")

  /** `${name}_HelpTickets`. */
  function SheetOf(name: string): string
  {
    name + "_HelpTickets"
  }

  /** The row POST `/create` writes to both sheets. */
  function TicketRow(id: string, issue: string, creator: string, assignee: string, created: string): Row
  {
    [id, issue, creator, assignee, created, "", "Open", ""]
  }

  /** The two appends of POST `/create` as written: the assignee's copy to
      the assignee's sheet, then the creator's copy to the creator's sheet.
      When creator and assignee are the same person both appends go to the
      one sheet, which then holds the ticket twice. */
  function AppendCopies(m: map<string, Sheet>, row: Row, creator: string, assignee: string): (o: Outcome)
    ensures o.sheets.Keys == m.Keys
    ensures o.ok <==> SheetOf(assignee) in m && SheetOf(creator) in m
    ensures o.ok && creator == assignee ==>
      o.sheets[SheetOf(creator)].data == m[SheetOf(creator)].data + [row, row]
  {
    var a, c := SheetOf(assignee), SheetOf(creator);
    if a !in m then Outcome(m, false)
    else
      var first := AppendTo(m, a, [row]);
      if c !in first then Outcome(first, false)
      else Outcome(AppendTo(first, c, [row]), true)
  }

  /** The appends the mirroring is meant to make: one copy on each sheet
      involved, so a self-assigned ticket is written once. A failing second
      append leaves the first in place. */
  function MirrorCopies(m: map<string, Sheet>, row: Row, creator: string, assignee: string): (o: Outcome)
    ensures o.sheets.Keys == m.Keys
    ensures o.ok <==> SheetOf(assignee) in m && SheetOf(creator) in m
    ensures o.ok ==> forall n :: n in m ==>
      o.sheets[n] == if n == SheetOf(assignee) || n == SheetOf(creator) then Sheet(m[n].header, m[n].data + [row]) else m[n]
  {
    var a, c := SheetOf(assignee), SheetOf(creator);
    if a !in m then Outcome(m, false)
    else
      var first := AppendTo(m, a, [row]);
      if c == a then Outcome(first, true)
      else if c !in first then Outcome(first, false)
      else Outcome(AppendTo(first, c, [row]), true)
  }

  /** Where creator and assignee have different sheets, the appends as
      written and the intended ones coincide. */
  lemma AsWrittenMirrorsDistinct(m: map<string, Sheet>, row: Row, creator: string, assignee: string)
    requires creator != assignee
    ensures AppendCopies(m, row, creator, assignee) == MirrorCopies(m, row, creator, assignee)
  {
    SheetOfDistinct(creator, assignee);
  }

  /** POST `/create`: the copy for the assignee's sheet, then the one for the
      creator's sheet when that is a different sheet. */
  method Create(store: Store, user: string, assignedTo: Option<string>, issue: Option<string>,
                id: string, now: Clock) returns (res: Result<string>)
    requires ValidClock(now)
    modifies store
    ensures !Present(assignedTo) || !Present(issue) ==> res == Err(MissingFields) && store.sheets == old(store.sheets)
    ensures Present(assignedTo) && Present(issue) ==>
      var o := MirrorCopies(old(store.sheets), TicketRow(id, issue.value, user, assignedTo.value, FormatTimestamp(now)), user, assignedTo.value);
      store.sheets == o.sheets && res == (if o.ok then Ok(id) else Err(StoreFailure))
  {
    if !Present(assignedTo) || !Present(issue) {
      return Err(MissingFields);
    }
    var row := TicketRow(id, issue.value, user, assignedTo.value, FormatTimestamp(now));
    var ok := store.Append(SheetOf(assignedTo.value), [row]);
    if !ok {
      return Err(StoreFailure);
    }
    if SheetOf(user) != SheetOf(assignedTo.value) {
      ok := store.Append(SheetOf(user), [row]);
      if !ok {
        return Err(StoreFailure);
      }
    }
    res := Ok(id);
  }

  /** A created ticket under a fresh identifier is the last row of both
      sheets, the only one carrying its identifier, and is found there as
      the open row. */
  lemma CreateMirrors(m: map<string, Sheet>, id: string, issue: string, creator: string, assignee: string, created: string)
    requires SheetOf(assignee) in m && SheetOf(creator) in m
    requires FindIndex(m[SheetOf(assignee)].data, id) == -1 && FindIndex(m[SheetOf(creator)].data, id) == -1
    ensures var row := TicketRow(id, issue, creator, assignee, created);
      var o := MirrorCopies(m, row, creator, assignee);
      && o.ok
      && o.sheets[SheetOf(assignee)].data == m[SheetOf(assignee)].data + [row]
      && o.sheets[SheetOf(creator)].data == m[SheetOf(creator)].data + [row]
      && FindIndex(o.sheets[SheetOf(assignee)].data, id) == |m[SheetOf(assignee)].data|
      && FindIndex(o.sheets[SheetOf(creator)].data, id) == |m[SheetOf(creator)].data|
  {
    var row := TicketRow(id, issue, creator, assignee, created);
    FreshAppend(m[SheetOf(assignee)].data, row, id);
    FreshAppend(m[SheetOf(creator)].data, row, id);
  }

  /** Different names have different sheets. */
  lemma SheetOfDistinct(a: string, b: string)
    requires a != b
    ensures SheetOf(a) != SheetOf(b)
  {
    if |a| == |b| {
      assert SheetOf(a)[..|a|] == a && SheetOf(b)[..|b|] == b;
    }
  }

  /** One ticket as the GET routes return it; an undefined field is left out of the JSON. */
  datatype Ticket = Ticket(
    id: Option<string>, issue: Option<string>, createdBy: Option<string>, assignedTo: Option<string>,
    created: Option<string>, doneDate: Option<string>, status: Option<string>, notes: Option<string>)

  function TicketOf(r: Row): Ticket
  {
    Ticket(Cell(r, 0), Cell(r, 1), Cell(r, 2), Cell(r, 3), Cell(r, 4), Cell(r, 5), Cell(r, 6), Cell(r, 7))
  }

  function Fields(t: Ticket): seq<Option<string>>
  {
    [t.id, t.issue, t.createdBy, t.assignedTo, t.created, t.doneDate, t.status, t.notes]
  }

  /** Every cell of a stored row of columns A to H reaches the response. */
  lemma TicketKeepsRow(r: Row)
    requires |r| <= 8
    ensures Restore(Fields(TicketOf(r))) == r
  {
    assert Fields(TicketOf(r)) == Project(r, 8);
    RestoreProject(r, 8);
  }

  /** GET `/assigned` and GET `/created`, which are the same handler: every
      row of the caller's sheet, projected field by field, in sheet order. */
  method List(store: Store, user: string) returns (res: Result<seq<Ticket>>)
    ensures SheetOf(user) !in store.sheets ==> res == Err(StoreFailure)
    ensures SheetOf(user) in store.sheets ==>
      var rows := store.sheets[SheetOf(user)].data;
      res.Ok? && |res.value| == |rows| && forall k :: 0 <= k < |rows| ==> res.value[k] == TicketOf(rows[k])
  {
    var fetched := store.Get(SheetOf(user));
    if fetched.Err? {
      return Err(fetched.error);
    }
    var rows := fetched.value;
    res := Ok(seq(|rows|, k requires 0 <= k < |rows| => TicketOf(rows[k])));
  }

  /** The permission check of PATCH `/status/:ticketID`: the assignee may move
      an Open or InProgress ticket to Open or InProgress; the creator may move
      an InProgress ticket to Done. */
  predicate Allowed(user: string, ticket: Row, status: Option<string>)
  {
    (Some(user) == Cell(ticket, 3)
     && (Cell(ticket, 6) == Some("Open") || Cell(ticket, 6) == Some("InProgress"))
     && (status == Some("Open") || status == Some("InProgress")))
    || (Some(user) == Cell(ticket, 2) && Cell(ticket, 6) == Some("InProgress") && status == Some("Done"))
  }

  /** Someone who neither created nor was assigned the ticket may not change it. */
  lemma StrangerNeverAllowed(user: string, ticket: Row, status: Option<string>)
    requires Some(user) != Cell(ticket, 2) && Some(user) != Cell(ticket, 3)
    ensures !Allowed(user, ticket, status)
  {
  }

  /** A Done ticket is final: nobody may change its status again. */
  lemma DoneIsFinal(user: string, ticket: Row, status: Option<string>)
    requires Cell(ticket, 6) == Some("Done")
    ensures !Allowed(user, ticket, status)
  {
  }

  /** Only the creator closes a ticket, and only one that is in progress; an
      assignee who did not create the ticket can never close it. */
  lemma OnlyCreatorCloses(user: string, ticket: Row, status: Option<string>)
    requires Allowed(user, ticket, status) && status == Some("Done")
    ensures Some(user) == Cell(ticket, 2) && Cell(ticket, 6) == Some("InProgress")
  {
  }

  /** Every permitted change that does not close the ticket is the
      assignee's, between Open and InProgress. */
  lemma OtherChangesAreAssignees(user: string, ticket: Row, status: Option<string>)
    requires Allowed(user, ticket, status) && status != Some("Done")
    ensures Some(user) == Cell(ticket, 3)
    ensures Cell(ticket, 6) in {Some("Open"), Some("InProgress")} && status in {Some("Open"), Some("InProgress")}
  {
  }

  /** A permitted change comes from the creator or the assignee, so the
      caller's own sheet is one of the two sheets that are written. */
  lemma CallerSheetIsWritten(user: string, ticket: Row, status: Option<string>)
    requires Allowed(user, ticket, status)
    ensures SheetOf(user) in Titles(ticket)
  {
  }

  /** `sheetRows[i][6] = Status`, and `sheetRows[i][5]` stamped when the new status is Done. */
  function StatusRow(row: Row, status: string, stamp: string): (w: Row)
    ensures Cell(w, 6) == Some(status)
    ensures status == "Done" ==> Cell(w, 5) == Some(stamp)
    ensures forall j: nat :: j != 6 && (j != 5 || status != "Done") && j < |row| ==> Cell(w, j) == Cell(row, j)
    ensures |w| == if |row| < 7 then 7 else |row|
  {
    var w := SetCell(row, 6, status);
    if status == "Done" then SetCell(w, 5, stamp) else w
  }

  /** Writing the same status twice is writing it once. */
  lemma StatusRowTwice(row: Row, status: string, stamp: string)
    ensures StatusRow(StatusRow(row, status, stamp), status, stamp) == StatusRow(row, status, stamp)
  {
    var w := StatusRow(row, status, stamp);
    assert SetCell(w, 6, status) == w;
    if status == "Done" {
      assert SetCell(w, 5, stamp) == w;
    }
  }

  /** `[creatorName, assignedName]`, each turned into its sheet's title; an
      undefined name is spelled `undefined`. */
  function Titles(ticket: Row): seq<string>
  {
    [SheetOf(Interpolated(Cell(ticket, 2))), SheetOf(Interpolated(Cell(ticket, 3)))]
  }

  /** A copy of the ticket after the status change: the row carrying the
      identifier gets the new status; a sheet without it is left as it is. */
  function Synced(sheet: Sheet, id: string, status: string, stamp: string): Sheet
  {
    var i := FindIndex(sheet.data, id);
    if i == -1 then sheet else Sheet(sheet.header, sheet.data[i := StatusRow(sheet.data[i], status, stamp)])
  }

  /** Syncing a sheet twice is syncing it once. */
  lemma SyncedTwice(sheet: Sheet, id: string, status: string, stamp: string)
    ensures Synced(Synced(sheet, id, status, stamp), id, status, stamp) == Synced(sheet, id, status, stamp)
  {
    var i := FindIndex(sheet.data, id);
    if i != -1 {
      var row := StatusRow(sheet.data[i], status, stamp);
      ReplaceKeepsLookup(sheet.data, i, row, id);
      StatusRowTwice(sheet.data[i], status, stamp);
    }
  }

  /** The store after the loop over `titles`, and whether every request
      succeeded; the first request that fails ends the loop. */
  datatype Outcome = Outcome(sheets: map<string, Sheet>, ok: bool)

  function Sync(m: map<string, Sheet>, titles: seq<string>, id: string, status: string, stamp: string): Outcome
    decreases |titles|
  {
    if titles == [] then Outcome(m, true)
    else
      var o := Sync(m, titles[..|titles| - 1], id, status, stamp);
      var title := titles[|titles| - 1];
      if !o.ok then o
      else if title !in o.sheets then Outcome(o.sheets, false)
      else Outcome(o.sheets[title := Synced(o.sheets[title], id, status, stamp)], true)
  }

  /** The loop succeeds exactly when every sheet it names exists, and then
      every named sheet holds its synced copy and every other sheet is
      unchanged; the set of sheets never changes. */
  lemma {:induction false} SyncReachesEveryCopy(m: map<string, Sheet>, titles: seq<string>, id: string, status: string, stamp: string)
    ensures var o := Sync(m, titles, id, status, stamp);
      && o.sheets.Keys == m.Keys
      && (o.ok <==> forall t :: t in titles ==> t in m)
      && (o.ok ==> forall n :: n in m ==> o.sheets[n] == if n in titles then Synced(m[n], id, status, stamp) else m[n])
    decreases |titles|
  {
    if titles != [] {
      var init, title := titles[..|titles| - 1], titles[|titles| - 1];
      SyncReachesEveryCopy(m, init, id, status, stamp);
      assert forall t :: t in titles <==> t in init || t == title;
      var o := Sync(m, init, id, status, stamp);
      if o.ok && title in m {
        SyncedTwice(m[title], id, status, stamp);
      }
    }
  }

  /** PATCH `/status/:ticketID`: the ticket is looked up in the caller's own
      sheet and the permission checked on that copy; then for the creator's
      and the assignee's sheet in turn the row carrying the identifier gets
      the new status, and DoneDate when the status is Done. */
  method UpdateStatus(store: Store, user: string, ticketID: string, status: Option<string>, now: Clock)
    returns (res: Result<()>)
    requires ValidClock(now)
    modifies store
    ensures SheetOf(user) !in old(store.sheets) ==> res == Err(StoreFailure) && store.sheets == old(store.sheets)
    ensures SheetOf(user) in old(store.sheets) ==>
      var rows := old(store.sheets)[SheetOf(user)].data;
      var idx := FindIndex(rows, ticketID);
      if idx == -1 then res == Err(NotFound) && store.sheets == old(store.sheets)
      else if !Allowed(user, rows[idx], status) then res == Err(Forbidden) && store.sheets == old(store.sheets)
      else
        var o := Sync(old(store.sheets), Titles(rows[idx]), ticketID, status.value, FormatTimestamp(now));
        store.sheets == o.sheets && res == (if o.ok then Ok(()) else Err(StoreFailure))
  {
    var fetched := store.Get(SheetOf(user));
    if fetched.Err? {
      return Err(fetched.error);
    }
    var rows := fetched.value;
    var idx := FindIndex(rows, ticketID);
    if idx == -1 {
      return Err(NotFound);
    }
    var ticket := rows[idx];
    if !Allowed(user, ticket, status) {
      return Err(Forbidden);
    }
    var titles := Titles(ticket);
    var stamp := FormatTimestamp(now);
    for k := 0 to |titles|
      invariant Sync(old(store.sheets), titles[..k], ticketID, status.value, stamp) == Outcome(store.sheets, true)
    {
      assert titles[..k + 1][..k] == titles[..k];
      var ok := SyncSheet(store, titles[k], ticketID, status.value, stamp);
      if !ok {
        SyncStops(old(store.sheets), titles, k + 1, ticketID, status.value, stamp);
        assert titles[..|titles|] == titles;
        return Err(StoreFailure);
      }
    }
    assert titles[..|titles|] == titles;
    res := Ok(());
  }

  /** One pass of the loop: fetch the sheet `title`, and rewrite the row
      carrying the identifier if there is one. */
  method SyncSheet(store: Store, title: string, id: string, status: string, stamp: string) returns (ok: bool)
    modifies store
    ensures ok == (title in old(store.sheets))
    ensures store.sheets == if ok then old(store.sheets)[title := Synced(old(store.sheets)[title], id, status, stamp)] else old(store.sheets)
  {
    var sheetRows := store.Get(title);
    if sheetRows.Err? {
      return false;
    }
    var i := FindIndex(sheetRows.value, id);
    if i != -1 {
      store.Update(title, i + 2, StatusRow(sheetRows.value[i], status, stamp));
    } else {
      assert store.sheets[title := store.sheets[title]] == store.sheets;
    }
    ok := true;
  }

  /** Once a request has failed, the loop's outcome no longer changes. */
  lemma {:induction false} SyncStops(m: map<string, Sheet>, titles: seq<string>, k: int, id: string, status: string, stamp: string)
    requires 0 <= k <= |titles| && !Sync(m, titles[..k], id, status, stamp).ok
    ensures Sync(m, titles, id, status, stamp) == Sync(m, titles[..k], id, status, stamp)
    decreases |titles| - k
  {
    if k < |titles| {
      assert titles[..k + 1][..k] == titles[..k];
      SyncStops(m, titles, k + 1, id, status, stamp);
    } else {
      assert titles[..k] == titles;
    }
  }

  /** After a permitted change, on each of the two sheets the first row
      carrying the ticket has the new status (and the stamp when it is Done)
      in the row where it was, the row's other cells unchanged, and every
      other row and sheet is as it was. */
  lemma CopiesAgree(m: map<string, Sheet>, ticket: Row, id: string, status: string, stamp: string, title: string)
    requires Sync(m, Titles(ticket), id, status, stamp).ok
    requires title in Titles(ticket)
    ensures title in m && title in Sync(m, Titles(ticket), id, status, stamp).sheets
    ensures var final := Sync(m, Titles(ticket), id, status, stamp).sheets;
      var i := FindIndex(m[title].data, id);
      && |final[title].data| == |m[title].data|
      && (forall k :: 0 <= k < |m[title].data| && k != i ==> final[title].data[k] == m[title].data[k])
      && (i != -1 ==>
            && Cell(final[title].data[i], 6) == Some(status)
            && (status == "Done" ==> Cell(final[title].data[i], 5) == Some(stamp))
            && (forall j: nat :: j != 6 && (j != 5 || status != "Done") && j < |m[title].data[i]|
                  ==> Cell(final[title].data[i], j) == Cell(m[title].data[i], j)))
  {
    SyncReachesEveryCopy(m, Titles(ticket), id, status, stamp);
  }

  /** With the appends as written, a self-assigned ticket is on its one sheet
      twice. The assignee may start it, but both passes of the status loop
      rewrite the first copy, so the second copy still reads Open. */
  lemma SelfAssignedLeavesStaleCopy(m: map<string, Sheet>, id: string, issue: string, user: string, created: string, stamp: string)
    requires SheetOf(user) in m && FindIndex(m[SheetOf(user)].data, id) == -1
    ensures var row := TicketRow(id, issue, user, user, created);
      var o := AppendCopies(m, row, user, user);
      var s := Sync(o.sheets, Titles(row), id, "InProgress", stamp);
      var n := |m[SheetOf(user)].data|;
      && o.ok && Allowed(user, row, Some("InProgress")) && s.ok
      && |s.sheets[SheetOf(user)].data| == n + 2
      && Cell(s.sheets[SheetOf(user)].data[n], 0) == Some(id) && Cell(s.sheets[SheetOf(user)].data[n + 1], 0) == Some(id)
      && Cell(s.sheets[SheetOf(user)].data[n], 6) == Some("InProgress")
      && Cell(s.sheets[SheetOf(user)].data[n + 1], 6) == Some("Open")
  {
    var row := TicketRow(id, issue, user, user, created);
    var title, pre := SheetOf(user), m[SheetOf(user)].data;
    var o := AppendCopies(m, row, user, user);
    assert Titles(row) == [title, title];
    FreshAppend(pre, row, id);
    FoundInPrefix(pre + [row], [row], id);
    assert pre + [row, row] == (pre + [row]) + [row];
    SyncReachesEveryCopy(o.sheets, Titles(row), id, "InProgress", stamp);
  }

  /** A lookup that succeeds in a table still finds the same row once more
      rows follow it. */
  lemma FoundInPrefix(a: seq<Row>, b: seq<Row>, id: string)
    requires FindIndex(a, id) != -1
    ensures FindIndex(a + b, id) == FindIndex(a, id)
  {
    assert forall j :: 0 <= j < |a| ==> (a + b)[j] == a[j];
  }

  /** With one copy per sheet, a permitted change reaches every copy: after
      the status loop, every row carrying the identifier on either sheet has
      the new status. */
  lemma CopiesAgreeAfterCreate(m: map<string, Sheet>, id: string, issue: string, creator: string, assignee: string,
                               created: string, status: string, stamp: string)
    requires SheetOf(assignee) in m && SheetOf(creator) in m
    requires FindIndex(m[SheetOf(assignee)].data, id) == -1 && FindIndex(m[SheetOf(creator)].data, id) == -1
    ensures var row := TicketRow(id, issue, creator, assignee, created);
      var o := MirrorCopies(m, row, creator, assignee);
      var s := Sync(o.sheets, Titles(row), id, status, stamp);
      && o.ok && s.ok
      && forall t :: t in Titles(row) ==>
           && t in s.sheets
           && forall k :: 0 <= k < |s.sheets[t].data| && Cell(s.sheets[t].data[k], 0) == Some(id) ==>
                Cell(s.sheets[t].data[k], 6) == Some(status)
  {
    var row := TicketRow(id, issue, creator, assignee, created);
    var o := MirrorCopies(m, row, creator, assignee);
    assert Titles(row) == [SheetOf(creator), SheetOf(assignee)];
    SyncReachesEveryCopy(o.sheets, Titles(row), id, status, stamp);
    SyncedFresh(m[SheetOf(creator)], row, id, status, stamp);
    SyncedFresh(m[SheetOf(assignee)], row, id, status, stamp);
  }

  /** A sheet the ticket was just appended to, under an identifier it did not
      hold, has it in exactly one row, and syncing gives that row the status. */
  lemma SyncedFresh(sheet: Sheet, row: Row, id: string, status: string, stamp: string)
    requires FindIndex(sheet.data, id) == -1 && Cell(row, 0) == Some(id)
    ensures var d := Synced(Sheet(sheet.header, sheet.data + [row]), id, status, stamp).data;
      forall k :: 0 <= k < |d| && Cell(d[k], 0) == Some(id) ==> Cell(d[k], 6) == Some(status)
  {
    FreshAppend(sheet.data, row, id);
  }

  /** The life of a ticket: the assignee starts it, the creator closes it,
      and then nobody may change it. */
  lemma TicketLifecycle(id: string, issue: string, creator: string, assignee: string, created: string, stamp: string)
    requires creator != assignee
    ensures var open := TicketRow(id, issue, creator, assignee, created);
      var started := StatusRow(open, "InProgress", stamp);
      var closed := StatusRow(started, "Done", stamp);
      && Allowed(assignee, open, Some("InProgress")) && !Allowed(creator, open, Some("Done"))
      && !Allowed(assignee, started, Some("Done")) && Allowed(creator, started, Some("Done"))
      && Cell(closed, 6) == Some("Done") && Cell(closed, 5) == Some(stamp)
      && forall user, status :: !Allowed(user, closed, status)
  {
  }
}
