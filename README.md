# Employee portal back end — a Dafny model of its route handlers

The employee portal is an Express server. It keeps all of its data in one
spreadsheet, with one sheet per kind of record and per employee:
- `Employee` holds the accounts.
- `SupportTickets` is shared by everyone.
- Registration gives every employee three personal sheets: `<name>_Checklist`,
  `<name>_HelpTickets` and `<name>_Delegations`.

Each route handler reads rows of a sheet, finds a row by the identifier in
its column A, changes cells of that row in place, and writes the row back.
The handlers may also append rows, blank a row or add sheets.

This project models those handlers and proves what they do:

- `Sheets` is the store: the class `Store`, whose field `sheets` maps titles
  to sheets, with one method per request to the store. It also holds the
  cell-level functions that describe JavaScript's `row[k] = v` on a fetched
  row, and `findIndex` on rows.
- `Calendar` and `IsoTime` model what the handlers do with time:
  - the day arithmetic of `setDate` and `setMonth`;
  - the `YYYY-MM-DD` and `toISOString()` texts the handlers store;
  - the parse `new Date(text)` performs on those texts.
- `Checklist` models `routes/checklist.js`: `getNextDeadline` and the
  create, list, done and delete handlers.
- `Recurrence` models `utils/recurrence.js`, the recurring-checklist router.
  It has the generator that runs before every listing, the day-granular
  `Delay` of the listing, and the mark-done handler, which also appends
  the next instance.
- `Delegations` models `routes/delegations.js`: a listing that hides tasks
  done more than six hours ago, plus create, start, done and delete.
- `HelpTickets` models `routes/helpTickets.js`:
  - a ticket is mirrored on the creator's and the assignee's sheets;
  - a permission rule decides who may move it between Open, InProgress
    and Done;
  - a permitted change is written to the first row carrying the ticket on
    each of the two sheets.
- `SupportTickets` models `routes/supportTickets.js`: the shared
  support-ticket sheet and its status update, which stamps ResolvedDate.
- `Auth` models `routes/auth.js`:
  - registration: validation, the duplicate-mobile check, the employee row
    and the three personal sheets;
  - login: lookup, password check and the token's claims.

Every handler is a method on a `Store`. Its `ensures` gives the reply and
the whole new store as a function of the old one. The lemmas next to each
handler state what the routes promise:
- round trips: a written timestamp reads back as the clock reading it came
  from;
- the cells a change touches, and the ones it leaves alone;
- which rows the generator produces, and how often;
- who may change a help ticket;
- that the copies of a help ticket agree after a change when the ticket
  was written once per sheet, and that a self-assigned ticket written as
  the code does keeps a stale second copy;
- that a registered employee can log in.

Identifiers (`nanoid`), the clock, password hashing and password comparison
are parameters of the handlers.

## Model

| member | source | states |
|---|---|---|
| Sheets.SetCell | employee-portal-backend/routes/checklist.js:116-117 | Writing `r[k] = v` leaves `v` in cell `k`. It grows a short row to `k + 1` cells, padding with empty cells. Every other cell keeps its value. |
| Sheets.WriteCell | employee-portal-backend/routes/supportTickets.js:80 | Writing an undefined value leaves the row as it was. A defined value lands in cell `k`. No other cell changes. |
| Sheets.MarkedDone | employee-portal-backend/routes/checklist.js:116-117 | The stamp lands in DoneDate (column 4) and "Done" in Status (column 5). Every other cell keeps its value. |
| Sheets.Project | employee-portal-backend/routes/checklist.js:40-48 | The projection onto `width` named fields has field `k` equal to `r[k]`, undefined past the end of the row. |
| Sheets.RestoreProject | employee-portal-backend/routes/checklist.js:40-48 | Projecting a row onto at least as many fields as it has cells loses nothing: the row reads back from the fields. |
| Sheets.FindBy | employee-portal-backend/routes/auth.js:31 | `findIndex` by column returns the first row whose cell is `v`. It returns -1 exactly when no row has that value; an undefined `v` matches a missing cell. |
| Sheets.CountIdAppend | employee-portal-backend/utils/recurrence.js:54-61 | The count of rows carrying an identifier adds up over concatenated tables. |
| Sheets.FindNoneConcat | employee-portal-backend/utils/recurrence.js:54-61 | An identifier is absent from a concatenation exactly when it is absent from both parts. |
| Sheets.FoundIsOnly | employee-portal-backend/routes/checklist.js:109 | With unique identifiers, the row `findIndex` returns is the only row carrying the identifier. |
| Sheets.FreshAppend | employee-portal-backend/routes/checklist.js:76-85 | A row appended under a fresh identifier is found at the end of the table, and unique identifiers stay unique. |
| Sheets.ReplaceKeepsLookup | employee-portal-backend/routes/checklist.js:119-124 | Rewriting a found row without touching column A leaves every lookup by identifier, and uniqueness, as they were. |
| Sheets.Store.Get | employee-portal-backend/routes/checklist.js:33-38 | A read of `name!A2:…` returns the data rows, or fails when the sheet does not exist. |
| Sheets.Store.GetAll | employee-portal-backend/routes/auth.js:201-206 | A read of `name!A:…` returns the header row followed by the data rows. |
| Sheets.Store.Append | employee-portal-backend/routes/checklist.js:76-85 | Appended rows follow the existing data rows. The append fails, with nothing written, when the sheet does not exist. |
| Sheets.Store.Update | employee-portal-backend/routes/checklist.js:119-124 | Updating sheet row `idx + 2` replaces data row `idx` and nothing else. |
| Sheets.Store.Clear | employee-portal-backend/routes/checklist.js:152-155 | Clearing sheet row `idx + 2` blanks data row `idx`. The row keeps its position. |
| Sheets.Store.AddSheet | employee-portal-backend/routes/auth.js:64-97 | Adding a sheet creates it with its header row and no data. Adding a title that already exists fails and changes nothing. |
| Calendar.DaysInMonth | employee-portal-backend/routes/checklist.js:15 | Months have 28 to 31 days. Only February has 28 or 29. |
| Calendar.NextDay | employee-portal-backend/routes/checklist.js:15 | `setDate(getDate() + 1)` gives a valid date in the same year or the next one. |
| Calendar.NextDayCount | employee-portal-backend/routes/checklist.js:15 | The next day is exactly one day number later, across month and year ends. |
| Calendar.AddDays | employee-portal-backend/routes/checklist.js:17 | `setDate(getDate() + n)` gives a valid date. |
| Calendar.AddDaysCount | employee-portal-backend/routes/checklist.js:17 | Adding `n` days moves the day number forward by exactly `n`. |
| Calendar.AddMonth | employee-portal-backend/routes/checklist.js:19 | `setMonth(getMonth() + 1)` gives a valid date. |
| Calendar.AddMonthCount | employee-portal-backend/routes/checklist.js:19 | The result counts `day - 1` days from the first of the next month, so it lies 1 to 31 days after the date. |
| Calendar.MonthlyKeepsDay | employee-portal-backend/routes/checklist.js:19 | When the next month has the day, the day of the month is kept. |
| Calendar.MonthlyRollsOver | employee-portal-backend/routes/checklist.js:19 | When the next month lacks the day, the surplus rolls into the month after it. |
| Calendar.JanuaryThirtyFirst | employee-portal-backend/routes/checklist.js:19 | January 31 advances to March 3 in a common year and to March 2 in a leap year. |
| Calendar.YearsApart | employee-portal-backend/routes/checklist.js:11-23 | Two dates less than a year apart lie in the same or consecutive years. This keeps every deadline within four-digit years. |
| IsoTime.Digits | employee-portal-backend/routes/checklist.js:22 | A number is written with exactly `width` zero-padded digits. |
| IsoTime.DigitsValue | employee-portal-backend/routes/checklist.js:22 | The written digits are decimal digits that denote the number. |
| IsoTime.DigitsOfValue | employee-portal-backend/routes/checklist.js:22 | Fixed-width digits are the only spelling of their value. |
| IsoTime.FormatDate | employee-portal-backend/routes/checklist.js:22 | `toISOString().split("T")[0]` is a ten-character text. |
| IsoTime.ParseDateOfGroups | employee-portal-backend/utils/recurrence.js:33 | A date text built from digit groups parses to the date those groups denote, if it is a valid date. |
| IsoTime.DateRoundTrip | employee-portal-backend/utils/recurrence.js:33 | A date written as `YYYY-MM-DD` parses back to that date. |
| IsoTime.DateRoundTripBack | employee-portal-backend/utils/recurrence.js:33 | Every text the date parse accepts is the formatting of the date it yields. |
| IsoTime.TimeText | employee-portal-backend/routes/delegations.js:52 | The time part `HH:MM:SS.sss` of a timestamp is twelve characters. |
| IsoTime.FormatTimestamp | employee-portal-backend/routes/delegations.js:52 | `toISOString()` is 24 characters: the date, `T`, the time of day, `Z`. |
| IsoTime.TimeOfDaySplit | employee-portal-backend/routes/delegations.js:52 | Hours, minutes, seconds and milliseconds are in range and add up to the time of day. |
| IsoTime.ParseTimeOfGroups | employee-portal-backend/routes/delegations.js:26 | A time text built from digit groups parses to the milliseconds those groups denote. |
| IsoTime.TimeRoundTrip | employee-portal-backend/routes/delegations.js:26 | The time of day written as `HH:MM:SS.sss` parses back to the same milliseconds. |
| IsoTime.TimestampRoundTrip | employee-portal-backend/routes/delegations.js:26 | `new Date(toISOString()).getTime()` is the clock reading's time value. |
| IsoTime.InstantOfText | employee-portal-backend/routes/delegations.js:26 | A date text and a time text joined as a timestamp parse to that day's midnight plus the time. |
| IsoTime.DateInstant | employee-portal-backend/utils/recurrence.js:94 | `new Date("YYYY-MM-DD")` is that day's UTC midnight. |
| IsoTime.DatePartOfPrefix | employee-portal-backend/utils/recurrence.js:178 | `split("T")[0]` of a text without `T`, followed by a `T`-led text, is the first text. |
| IsoTime.DateHasNoSeparator | employee-portal-backend/utils/recurrence.js:178 | A formatted date contains no `T`. |
| IsoTime.DateOfTimestamp | employee-portal-backend/utils/recurrence.js:178 | `now.split("T")[0]` of a timestamp is the clock's date. |
| Checklist.NextDeadline | employee-portal-backend/routes/checklist.js:11-23 | The deadline is a valid date in this year or the next. A format other than Daily, Weekly or Monthly, including an undefined one, gives today. |
| Checklist.NextDeadlineDistance | employee-portal-backend/routes/checklist.js:14-19 | Daily is one day later. Weekly is seven days later. Monthly counts the day of the month from the first of the next month. All three are strictly later than today. |
| Checklist.WeekAhead | employee-portal-backend/routes/checklist.js:17 | Seven days ahead lies in the same or the next year, exactly seven day numbers later. |
| Checklist.MonthAhead | employee-portal-backend/routes/checklist.js:19 | The monthly deadline lies in the same or the next year, strictly after today. |
| Checklist.DeadlineTextParses | employee-portal-backend/routes/checklist.js:22 | The returned deadline text parses back to the computed date. |
| Checklist.DeadlineOfWrittenFormat | employee-portal-backend/routes/checklist.js:11-23 | An undefined format and an empty one give the same deadline. |
| Checklist.ItemKeepsRow | employee-portal-backend/routes/checklist.js:40-48 | Every cell of a stored row, columns A to G, reaches the response. |
| Checklist.List | employee-portal-backend/routes/checklist.js:28-55 | Lists every data row projected field by field, in sheet order. A missing sheet gives the store's error. |
| Checklist.Create | employee-portal-backend/routes/checklist.js:60-92 | A missing name or format gives 400 "ChecklistName and Format are required" and no write. Otherwise it appends `[id, name, today, deadline, "", "Pending", format]`, where the deadline is the caller's non-empty one or the computed one. It replies with the id and the deadline. |
| Checklist.MarkDone | employee-portal-backend/routes/checklist.js:97-131 | An unknown id gives 404 "Checklist not found" and no change. Otherwise the found row is stamped at its own position, nothing is appended, and the reply is the stamp. |
| Checklist.Delete | employee-portal-backend/routes/checklist.js:136-162 | An unknown id gives 404 and no change. Otherwise exactly the found row is blanked in place. |
| Checklist.DoneTouchesOnlyStampColumns | employee-portal-backend/routes/checklist.js:115-124 | Done changes only DoneDate and Status of the found row. The row's other cells, every other row, the header and every other sheet stay as they were, and the row is still found under its id. |
| Recurrence.MomentAgrees | employee-portal-backend/utils/recurrence.js:37 | The per-format deadlines a run reads off the clock are what `getNextDeadline` returns for each format. |
| Recurrence.Flags | employee-portal-backend/utils/recurrence.js:36 | Flag `k` says whether row `k` triggers: it is overdue, or it is done and the table as fetched holds no row with its name and next deadline. |
| Recurrence.Nexts | employee-portal-backend/utils/recurrence.js:40 | Candidate `k` is row `k`'s next instance under identifier `ids[k]`. |
| Recurrence.RowStep | employee-portal-backend/utils/recurrence.js:24-51 | The loop body pushes the row's next instance exactly when the row triggers, and nothing otherwise. |
| Recurrence.GenerateRows | employee-portal-backend/utils/recurrence.js:22-52 | The loop's `newRows` are the next instances of the triggering rows, in row order. |
| Recurrence.AutoGenerate | employee-portal-backend/utils/recurrence.js:12-62 | The new table is the old rows followed by the generated ones. No existing row changes, and no append happens when nothing was generated. |
| Recurrence.Delay | employee-portal-backend/utils/recurrence.js:93-98 | A delay exists exactly for a row that is not done and whose deadline is in the past. It is non-negative, and it is the count of whole days by which the deadline has passed. |
| Recurrence.Entries | employee-portal-backend/utils/recurrence.js:82-101 | Each listed entry is its row's fields together with its delay, in sheet order. |
| Recurrence.List | employee-portal-backend/utils/recurrence.js:67-108 | The generator runs first. The reply lists the old rows followed by the generated ones, each with its delay at the same moment. |
| Recurrence.Create | employee-portal-backend/utils/recurrence.js:113-141 | No field is checked. The deadline is always computed, and undefined fields are written empty. |
| Recurrence.MarkDone | employee-portal-backend/utils/recurrence.js:146-198 | An unknown id gives 404. Otherwise the found row is stamped in place and its next instance is appended, dated with the stamp's date. A store failure answers 400. |
| Recurrence.NextOfStamp | employee-portal-backend/utils/recurrence.js:178-188 | The row mark-done appends is the next instance the generator would produce at the same moment. |
| Recurrence.Delete | employee-portal-backend/utils/recurrence.js:203-228 | An unknown id gives 404 and no change. Otherwise the found row is blanked in place. |
| Recurrence.KeepMembers | employee-portal-backend/utils/recurrence.js:36-51 | A row is pushed exactly when it is a candidate whose flag is set. |
| Recurrence.KeepAvoids | employee-portal-backend/utils/recurrence.js:39 | An identifier no candidate carries is carried by no generated row. |
| Recurrence.KeepCount | employee-portal-backend/utils/recurrence.js:39 | The one candidate with an identifier is pushed once if its flag is set, and otherwise not at all. |
| Recurrence.KeepIdsUnique | employee-portal-backend/utils/recurrence.js:54-61 | Distinct fresh identifiers keep the table's identifiers unique after the append. |
| Recurrence.GeneratedRows | employee-portal-backend/utils/recurrence.js:40 | The generated rows are exactly `[ids[k], name, today, next deadline, "", "Pending", format]` for each triggering row `k`. |
| Recurrence.GeneratedCount | employee-portal-backend/utils/recurrence.js:36-41 | With distinct fresh ids, each triggering row, overdue ones included, gives exactly one new row. A row that does not trigger gives none. |
| Recurrence.GeneratedAvoids | employee-portal-backend/utils/recurrence.js:39 | An identifier not among the drawn ones appears in no generated row. |
| Recurrence.GeneratedKeepsIdsUnique | employee-portal-backend/utils/recurrence.js:54-61 | Fresh, distinct identifiers keep the identifiers unique once the generated rows are appended. |
| Recurrence.RerunRepeatsOverdue | employee-portal-backend/utils/recurrence.js:36-41 | The overdue branch has no duplicate guard. A second run at the same moment again produces a next instance of every still-overdue row. |
| Recurrence.PairOfNext | employee-portal-backend/utils/recurrence.js:48 | A next instance carries its source's name and next deadline, and so does a next instance of a next instance. |
| Recurrence.SecondRunAddsNoPair | employee-portal-backend/utils/recurrence.js:44-51 | A second run at the same moment adds no (name, deadline) pair the table lacked. The listing is idempotent in pairs, though not in rows. |
| Recurrence.DeadlinesAreDates | employee-portal-backend/utils/recurrence.js:37 | Every deadline the generator writes is a ten-character date. |
| Recurrence.DuplicateWithinOneRun | employee-portal-backend/utils/recurrence.js:48 | The done guard reads the table as fetched. Two identical done rows in one table, whose deadline is not already their next one, both produce a next instance, so one run appends two rows with the same name and deadline. |
| Recurrence.DelayCountsDays | employee-portal-backend/utils/recurrence.js:96 | A pending row due on date `d` and listed on a later day is late by the number of days between `d` and today. |
| Recurrence.DoneRowNotRegenerated | employee-portal-backend/utils/recurrence.js:44-51 | Once mark-done has appended the next instance, the stamped row no longer makes the generator add one at the same moment. |
| Recurrence.GeneratedSingle | employee-portal-backend/utils/recurrence.js:24-52 | A one-row table generates that row's next instance exactly when the row triggers. |
| Recurrence.StandupGenerated | employee-portal-backend/utils/recurrence.js:36-41 | A Daily checklist due on day 1 and listed on day 2 generates one Pending instance due on day 3. |
| Recurrence.StandupOverdue | employee-portal-backend/utils/recurrence.js:36 | On day 2 the Daily checklist's day-1 deadline has passed. |
| Recurrence.StandupDelays | employee-portal-backend/utils/recurrence.js:93-98 | On day 2 the original is one day late and its new instance is not late. |
| Recurrence.StandupScenario | employee-portal-backend/utils/recurrence.js:67-108 | The day-2 listing holds the original, one day late, and its new instance, due on day 3 and not late. |
| Recurrence.GenerateAsWritten | employee-portal-backend/utils/recurrence.js:5 | As written, the generator gets through only a table with no overdue and no done row, and then generates nothing. Any other table fails with 500. |
| Recurrence.AsWrittenAgreesWhenQuiet | employee-portal-backend/utils/recurrence.js:5 | Where the as-written generator gets through, the corrected one generates nothing either. |
| Recurrence.StandupFailsAsWritten | employee-portal-backend/utils/recurrence.js:5 | On the day-2 Daily scenario the file as written answers 500, where the corrected generator appends one row. |
| Delegations.TaskKeepsRow | employee-portal-backend/routes/delegations.js:31-40 | Every cell of a stored row, columns A to H, reaches the listing. |
| Delegations.Listing | employee-portal-backend/routes/delegations.js:21-40 | The listing has no more tasks than the sheet has rows. |
| Delegations.ListingAppend | employee-portal-backend/routes/delegations.js:21-40 | The listing keeps sheet order: listing a split table lists the first part, then the second. |
| Delegations.ListingMembers | employee-portal-backend/routes/delegations.js:21-40 | A task is listed exactly when some visible row projects to it. |
| Delegations.ListedStatuses | employee-portal-backend/routes/delegations.js:22-30 | Every listed task is Pending, "In Progress", or Done at most six hours ago by its own DoneDate. Any other status is never listed. |
| Delegations.DoneListedForSixHours | employee-portal-backend/routes/delegations.js:25-28 | A task marked done at `now` is listed at a later time exactly when at most six hours have passed. |
| Delegations.StartedAlwaysListed | employee-portal-backend/routes/delegations.js:24 | A started task is listed at every time. |
| Delegations.List | employee-portal-backend/routes/delegations.js:8-46 | The reply is the listing of the sheet at the clock's time. |
| Delegations.Create | employee-portal-backend/routes/delegations.js:48-70 | It appends `[id, name, created, deadline, "", "Pending", priority, notes]` and checks no field. |
| Delegations.CreatedIsListed | employee-portal-backend/routes/delegations.js:57-64 | A created task is Pending with an empty DoneDate and is listed at every time. |
| Delegations.Start | employee-portal-backend/routes/delegations.js:72-101 | An unknown id gives 404 "Task not found" and no change. Otherwise Status becomes "In Progress", whatever it was. |
| Delegations.Done | employee-portal-backend/routes/delegations.js:103-133 | An unknown id gives 404 and no change. Otherwise the found row gets the stamp in DoneDate and "Done" in Status. |
| Delegations.Delete | employee-portal-backend/routes/delegations.js:135-161 | An unknown id gives 404 and no change. Otherwise the found row is blanked at sheet row `idx + 2`. |
| Delegations.ListingReplace | employee-portal-backend/routes/delegations.js:21-40 | Listing a table with one row rewritten lists the rows before it, then the new row, then the rows after it. |
| Delegations.ListingSingle | employee-portal-backend/routes/delegations.js:21-40 | A one-row table lists its row exactly when the row is visible. |
| Delegations.StartEffects | employee-portal-backend/routes/delegations.js:84-95 | Start keeps the row's other cells and its lookup, and the task stays listed at its place. |
| Delegations.DeleteHidesTask | employee-portal-backend/routes/delegations.js:149-155 | A deleted task leaves the listing and every other task stays in place. |
| HelpTickets.AppendCopies | employee-portal-backend/routes/helpTickets.js:22-41 | As written, the open row is appended to the assignee's sheet and then to the creator's. The appends succeed exactly when both sheets exist, and a self-assigned ticket ends up on its one sheet twice. |
| HelpTickets.MirrorCopies | employee-portal-backend/routes/helpTickets.js:22-41 | As intended, the row is appended once to each sheet involved: the assignee's and the creator's sheets each gain exactly that one row, and no other sheet changes. It succeeds exactly when both sheets exist. |
| HelpTickets.AsWrittenMirrorsDistinct | employee-portal-backend/routes/helpTickets.js:22-41 | When creator and assignee differ, the appends as written and the intended ones give the same store. |
| HelpTickets.Create | employee-portal-backend/routes/helpTickets.js:9-48 | A missing assignee or issue gives 400 "Required fields missing" and no write. Otherwise the open row is appended to the assignee's sheet and, when that is a different sheet, to the creator's. A failing second append keeps the first. |
| HelpTickets.CreateMirrors | employee-portal-backend/routes/helpTickets.js:22-41 | Under a fresh id, the ticket is the last row of both sheets and the first row found under its id. |
| HelpTickets.SheetOfDistinct | employee-portal-backend/routes/helpTickets.js:22 | Different names have different sheets. |
| HelpTickets.TicketKeepsRow | employee-portal-backend/routes/helpTickets.js:60-69 | Every cell of a stored row, columns A to H, reaches the response. |
| HelpTickets.List | employee-portal-backend/routes/helpTickets.js:51-102 | Both GET routes list every row of the caller's sheet, projected and in order. |
| HelpTickets.StrangerNeverAllowed | employee-portal-backend/routes/helpTickets.js:130-137 | Someone who is neither creator nor assignee may not change the status. |
| HelpTickets.DoneIsFinal | employee-portal-backend/routes/helpTickets.js:130-137 | Nobody may change a Done ticket. |
| HelpTickets.OnlyCreatorCloses | employee-portal-backend/routes/helpTickets.js:134-136 | A permitted move to Done is the creator's, on an InProgress ticket. |
| HelpTickets.OtherChangesAreAssignees | employee-portal-backend/routes/helpTickets.js:131-133 | Every other permitted change is the assignee's, from Open or InProgress to Open or InProgress. |
| HelpTickets.CallerSheetIsWritten | employee-portal-backend/routes/helpTickets.js:139 | A permitted caller's own sheet is one of the two that are written. |
| HelpTickets.StatusRow | employee-portal-backend/routes/helpTickets.js:148-149 | The new status lands in column 6, and the stamp in column 5 exactly when the status is Done. No other cell changes. |
| HelpTickets.StatusRowTwice | employee-portal-backend/routes/helpTickets.js:148-149 | Writing the same status twice is writing it once. |
| HelpTickets.SyncedTwice | employee-portal-backend/routes/helpTickets.js:145-155 | Syncing a copy twice is syncing it once. |
| HelpTickets.SyncReachesEveryCopy | employee-portal-backend/routes/helpTickets.js:139-157 | The loop succeeds exactly when every named sheet exists. On success each named sheet holds its synced copy and every other sheet is unchanged. The set of sheets never changes. |
| HelpTickets.UpdateStatus | employee-portal-backend/routes/helpTickets.js:105-166 | The ticket is looked up on the caller's sheet: 404 "Ticket not found" if absent, 403 "Not authorized to update status" with no change if the rule forbids it. Otherwise the creator's sheet and then the assignee's are synced in turn. |
| HelpTickets.SyncSheet | employee-portal-backend/routes/helpTickets.js:141-156 | One pass of the loop rewrites the row carrying the id, if the sheet has one. A sheet without it is left as it is. |
| HelpTickets.SyncStops | employee-portal-backend/routes/helpTickets.js:140-157 | After the first failing request the loop's outcome no longer changes. |
| HelpTickets.CopiesAgree | employee-portal-backend/routes/helpTickets.js:146-155 | After a permitted change, on each of the two sheets the first row carrying the id has the new status, and the stamp when it is Done, in the same row. Every other cell, row and sheet is unchanged. |
| HelpTickets.SelfAssignedLeavesStaleCopy | employee-portal-backend/routes/helpTickets.js:139-155 | With the appends as written, a self-assigned ticket the assignee may start is on its sheet twice. After the start, the first copy reads InProgress and the second still reads Open. |
| HelpTickets.CopiesAgreeAfterCreate | employee-portal-backend/routes/helpTickets.js:139-155 | For a ticket created with one copy per sheet under a fresh id, after a change every row carrying the id on either sheet has the new status, self-assigned or not. |
| HelpTickets.TicketLifecycle | employee-portal-backend/routes/helpTickets.js:128-137 | The assignee starts an open ticket and only the creator closes a started one. Nobody may change it afterwards. |
| SupportTickets.TicketKeepsRow | employee-portal-backend/routes/supportTickets.js:23-30 | Every cell of a stored row, columns A to F, reaches the response. |
| SupportTickets.List | employee-portal-backend/routes/supportTickets.js:19-36 | Lists every row of the shared sheet, projected and in order. |
| SupportTickets.Create | employee-portal-backend/routes/supportTickets.js:39-63 | It appends `[id, employee, issue, created, "Open", ""]` with no field checked. |
| SupportTickets.StatusUpdate | employee-portal-backend/routes/supportTickets.js:80-84 | The requested status is written verbatim to column 4; an undefined one is skipped. ResolvedDate is stamped exactly when the status is "Resolved" and otherwise keeps its value. No other cell changes. |
| SupportTickets.Update | employee-portal-backend/routes/supportTickets.js:66-98 | An unknown id gives 404 "Ticket not found" and no change. Otherwise the found row is rewritten at sheet row `index + 2`. |
| SupportTickets.UpdateEffects | employee-portal-backend/routes/supportTickets.js:77-92 | Every other row is kept and the ticket is still found. Its ResolvedDate reads back as the update time exactly when resolved, and is unchanged otherwise. |
| SupportTickets.CreateThenResolve | employee-portal-backend/routes/supportTickets.js:43-84 | A created-then-resolved ticket carries its id, "Resolved", and both times as they were read. |
| Auth.Register | employee-portal-backend/routes/auth.js:11-190 | A missing field gives 400 "All fields required". A mobile already in column C gives 400 "Mobile already registered". Both change nothing. Otherwise one employee row is appended and the three personal sheets are added in turn; a failing step keeps the earlier writes. |
| Auth.AddPersonalSheets | employee-portal-backend/routes/auth.js:62-180 | The three sheets are added in order, and the first that exists ends the sequence. |
| Auth.PersonalTitlesDistinct | employee-portal-backend/routes/auth.js:62 | The three personal sheet titles differ from each other and from `Employee`. |
| Auth.ProvisionAddsPersonalSheets | employee-portal-backend/routes/auth.js:62-180 | For a new name, registration adds `name_Checklist` (7 header columns), `name_HelpTickets` (7) and `name_Delegations` (8), all empty, and nothing else changes. |
| Auth.RegisterKeepsMobilesUnique | employee-portal-backend/routes/auth.js:29-33 | The duplicate check keeps mobiles unique, and a second registration with the same number fails the check. |
| Auth.Authenticate | employee-portal-backend/routes/auth.js:208-221 | It gives 404 "User not found" exactly when no row has the id in column A. A success carries that id in the token and in the user object. |
| Auth.Login | employee-portal-backend/routes/auth.js:196-239 | The decision is taken on `Employee!A:F`, header row included. |
| Auth.RegisterThenLogin | employee-portal-backend/routes/auth.js:216-234 | After registering under a fresh id, login with the same password succeeds. The session names the employee and department, and points at the delegation sheet registration added. |
| Auth.WrongPasswordRefused | employee-portal-backend/routes/auth.js:212-214 | A password the comparison rejects gives 401 "Incorrect password". |

## Findings

| source | as written | input that shows it | evidently intended | confidence | as-written member | corrected member |
|---|---|---|---|---|---|---|
| employee-portal-backend/routes/helpTickets.js:33-41 | The creator's copy is appended to the creator's sheet even when the creator is the assignee, so that sheet holds two rows with the ticket id. The status loop's two passes each rewrite the first row carrying the id, so the second copy keeps its old status. | User u creates a ticket assigned to u, then sets its status to InProgress | One copy per sheet: skip the second append when both sheets are the same, so each copy carries every status change | medium; not executed | HelpTickets.AppendCopies, HelpTickets.SelfAssignedLeavesStaleCopy | HelpTickets.MirrorCopies, HelpTickets.CopiesAgreeAfterCreate |
| employee-portal-backend/utils/recurrence.js:5 | Line 5 imports `getNextDeadline` from the file's own module. While the file loads, that module's exports are still empty, so the name is undefined and every call throws "getNextDeadline is not a function". The GET route then answers 500. | A sheet with one Daily row due yesterday and not done, listed with GET `/` | The deadline function of `routes/checklist.js:11-23` | high; not executed | Recurrence.GenerateAsWritten, Recurrence.StandupFailsAsWritten | Recurrence.GenerateRows, Recurrence.StandupGenerated |

## Left out

- The router of `utils/recurrence.js` is not mounted by `server.js`, which mounts `routes/checklist.js`. The model treats both routers as live.
- Recurrence.Create, Recurrence.MarkDone: these use the corrected deadline function. As written, the undefined `getNextDeadline` makes POST `/` always answer 500 with nothing appended. It makes mark-done stamp the row and then answer 400 without appending the next instance.
- Checklist.NextDeadline: follows the code's `setMonth`, whose surplus days roll into the following month (January 31 becomes March 3). It does not clamp to the month's last day.
- Time zones: `setDate` and `setMonth` work in the server's local time, while `toISOString` reports UTC. The model computes both in one calendar, so a server whose local date differs from the UTC date is not modelled.
- Clock readings are limited to years 0 to 9998, so that every written date has four digits.
- `new Date(text)` parses only the two ISO forms the routes write. Any other text is an invalid date, although JavaScript also accepts further formats.
- `nanoid` identifiers are parameters (`id`, `newId`, `ids`). Freshness and distinctness are lemma hypotheses, not guarantees of the model.
- Recurrence.GenerateRows: the model gives row `k` the identifier `ids[k]`. The source calls `nanoid` once per overdue row and once per done row, including a done row the duplicate guard then skips, and not at all for other rows. Which identifiers are consumed is not modelled.
- Auth.Register: the bcrypt hash is a deterministic function parameter. Its salt and cost are not modelled.
- Auth.Authenticate: the comparison is a function parameter. A missing password or stored hash gives 500 with the message "Illegal arguments"; the library's exact message text, which lists the argument types, is approximated.
- The signed token is represented by its claims. The secret, the signature and the two-day expiry are not modelled.
- The authentication middleware (`middleware/auth`) is not part of this model. The signed-in employee's name is a parameter (`user`).
- Each handler is one sequential step. Interleaved requests, and races between a read and the write that follows it, are not modelled.
- Store failures: a request fails only when it names a sheet that does not exist. Network and quota errors, and the client library's error messages, are not modelled; `StoreFailure` stands for all of them.
- Reads return whole rows. The column bounds of a range (`A2:G` and so on) are assumed to cover every stored cell.
- The values API omits trailing empty cells of a row. In the model a written `""` reads back as `""`, not as a missing cell.
- Sheets.Store.Get: returns every data row, including blanked rows at the end of the sheet. The values API omits trailing empty rows. So after the last row is deleted, Checklist.List, Recurrence.List, HelpTickets.List and SupportTickets.List answer with one item more than the source: an item whose fields are all undefined. Delegations.List is not affected, because its filter drops a blank row.
- `USER_ENTERED` input parsing is not modelled: cells read back as the text written.
- `values.append` in the model places rows after the last data row, even when trailing rows were cleared. The store's table detection is not modelled.
- Recurrence.List: one clock reading serves the generator and the delays. The source reads the clock twice, once per step.
- HelpTickets.UpdateStatus: one stamp serves both copies. The source reads the clock once per copy.
- Checklist.Create, Recurrence.Create, Recurrence.MarkDone, Recurrence.GenerateRows: one clock reading serves both the date (or stamp) and the deadline. The source reads the clock once for the date and again inside each `getNextDeadline` call: checklist.js:68-69, recurrence.js:117-118, recurrence.js:165 and :179, and recurrence.js:19 against :37 and :45, each with the reading at checklist.js:12. The readings give different dates when midnight falls between them.
- HelpTickets.Create: appends a self-assigned ticket once. As written it appends it twice to the same sheet; see Findings. For distinct creator and assignee the two agree (AsWrittenMirrorsDistinct).
- Request bodies are strings or undefined. Other JSON types, such as numbers or `null`, are not modelled. A required field counts as present when it is a non-empty string.
- JSON reply details, such as `ok: true` and the extra reply fields, are not modelled. Replies are result values.
- `server.js`, `googleSheetsClient.js` and `routes/employee.js` are not part of this model: they hold wiring, credentials, and a two-column projection with no logic.
