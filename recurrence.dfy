/** The recurring-checklist router of `utils/recurrence.js`, a second
    version of the checklist routes: every GET first runs the generator
    that appends the next instance of each overdue or completed checklist,
    then lists the sheet with a `Delay` in whole days on the overdue rows;
    marking a checklist done also appends its next instance. The
    deadlines come from the checklist router's `getNextDeadline`; the file
    imports that name from itself, which the last section models as
    written. */
module Recurrence {
  import opened Http
  import opened Calendar
  import opened IsoTime
  import opened Sheets
  import Checklist

  /** The reply of mark-done when a store request fails: its catch block answers 400. */
  const DoneFailure: Error := Error(400, StoreFailure.message)

  /** What one run of the generator reads from the clock: `now` in
      milliseconds, `today` as text, and the deadline `getNextDeadline`
      gives a format, for each of the three formats it knows and for any
      other. */
  datatype Moment = Moment(nowMs: int, today: string, daily: string, weekly: string, monthly: string, other: string)

  /** `getNextDeadline(format)` at the moment `m`. */
  function DeadlineAt(m: Moment, format: Option<string>): string
  {
    if format == Some("Daily") then m.daily
    else if format == Some("Weekly") then m.weekly
    else if format == Some("Monthly") then m.monthly
    else m.other
  }

  /** The moment of the clock reading `now`. */
  function MomentOf(now: Clock): Moment
    requires ValidClock(now)
  {
    Moment(Millis(now), Checklist.Today(now),
      Checklist.DeadlineText(Some("Daily"), now), Checklist.DeadlineText(Some("Weekly"), now),
      Checklist.DeadlineText(Some("Monthly"), now), Checklist.DeadlineText(None, now))
  }

  /** The moment answers for every format what `getNextDeadline` computes. */
  lemma MomentAgrees(now: Clock, format: Option<string>)
    requires ValidClock(now)
    ensures DeadlineAt(MomentOf(now), format) == Checklist.DeadlineText(format, now)
  {
    Checklist.DeadlineOfWrittenFormat(format, now);
  }

  /** `status !== "Done" && new Date(deadline) < now`: an invalid or
      undefined deadline is never in the past. */
  predicate Overdue(r: Row, m: Moment)
  {
    Cell(r, 5) != Some("Done")
    && match ParseCell(Cell(r, 3))
       case Some(t) => t < m.nowMs
       case None => false
  }

  /** `rows.find(x => x[3] === deadline && x[1] === name)` finds a row. */
  predicate Exists(rows: seq<Row>, name: Option<string>, deadline: string)
  {
    exists x :: x in rows && Cell(x, 3) == Some(deadline) && Cell(x, 1) == name
  }

  /** The next instance of checklist `r`: `[newID, name, today, newDeadline,
      "", "Pending", format]`, name and format taken from `r`. */
  function NextRow(r: Row, id: string, m: Moment): Row
  {
    Checklist.PendingRow(id, Text(Cell(r, 1)), m.today, DeadlineAt(m, Cell(r, 6)), Text(Cell(r, 6)))
  }

  /** A row makes the generator produce its next instance: it is overdue,
      or it is done and the table read before the run holds no row with its
      name and next deadline. */
  predicate Triggers(r: Row, snapshot: seq<Row>, m: Moment)
  {
    Overdue(r, m)
    || (Cell(r, 5) == Some("Done") && !Exists(snapshot, Cell(r, 1), DeadlineAt(m, Cell(r, 6))))
  }

  /** The rows `cands[k]` whose flag `flags[k]` is set, in order. */
  function Keep(flags: seq<bool>, cands: seq<Row>): seq<Row>
    requires |flags| == |cands|
  {
    if flags == [] then []
    else
      Keep(flags[..|flags| - 1], cands[..|cands| - 1])
      + (if flags[|flags| - 1] then [cands[|cands| - 1]] else [])
  }

  /** Which rows trigger, judged against `snapshot`. */
  function Flags(rows: seq<Row>, snapshot: seq<Row>, m: Moment): (f: seq<bool>)
    ensures |f| == |rows| && forall k :: 0 <= k < |rows| ==> f[k] == Triggers(rows[k], snapshot, m)
  {
    seq(|rows|, k requires 0 <= k < |rows| => Triggers(rows[k], snapshot, m))
  }

  /** The next instance of every row, row `k` drawing identifier `ids[k]`. */
  function Nexts(rows: seq<Row>, ids: seq<string>, m: Moment): (c: seq<Row>)
    requires |ids| == |rows|
    ensures |c| == |rows| && forall k :: 0 <= k < |rows| ==> c[k] == NextRow(rows[k], ids[k], m)
  {
    seq(|rows|, k requires 0 <= k < |rows| => NextRow(rows[k], ids[k], m))
  }

  /** `newRows` after the loop has visited `rows`, row `k` drawing the fresh
      identifier `ids[k]`; the duplicate guard reads `snapshot`, the table as
      fetched before the run. */
  function Generated(rows: seq<Row>, ids: seq<string>, snapshot: seq<Row>, m: Moment): seq<Row>
    requires |ids| == |rows|
  {
    Keep(Flags(rows, snapshot, m), Nexts(rows, ids, m))
  }

  /** The body of the loop of `autoGenerateChecklists` for one row `r` of
      the fetched table `rows`: the rows it pushes, drawing identifier `id`. */
  method RowStep(r: Row, id: string, rows: seq<Row>, today: string, now: Clock) returns (pushed: seq<Row>)
    requires ValidClock(now) && today == Checklist.Today(now)
    ensures pushed == if Triggers(r, rows, MomentOf(now)) then [NextRow(r, id, MomentOf(now))] else []
  {
    var name, status, format := Cell(r, 1), Cell(r, 5), Cell(r, 6);
    var deadlineDate := ParseCell(Cell(r, 3));
    MomentAgrees(now, format);
    pushed := [];
    if status != Some("Done") && deadlineDate.Some? && deadlineDate.value < Millis(now) {
      var newDeadline := Checklist.DeadlineText(format, now);
      pushed := pushed + [Checklist.PendingRow(id, Text(name), today, newDeadline, Text(format))];
    }
    if status == Some("Done") {
      var newDeadline := Checklist.DeadlineText(format, now);
      if !(exists x :: x in rows && Cell(x, 3) == Some(newDeadline) && Cell(x, 1) == name) {
        pushed := pushed + [Checklist.PendingRow(id, Text(name), today, newDeadline, Text(format))];
      }
    }
  }

  /** The loop of `autoGenerateChecklists`, reading the clock `now`. */
  method GenerateRows(rows: seq<Row>, ids: seq<string>, now: Clock) returns (newRows: seq<Row>)
    requires |ids| == |rows| && ValidClock(now)
    ensures newRows == Generated(rows, ids, rows, MomentOf(now))
  {
    ghost var flags, cands := Flags(rows, rows, MomentOf(now)), Nexts(rows, ids, MomentOf(now));
    var today := Checklist.Today(now);
    newRows := [];
    for k := 0 to |rows|
      invariant newRows == Keep(flags[..k], cands[..k])
    {
      KeepStep(flags, cands, k);
      var pushed := RowStep(rows[k], ids[k], rows, today, now);
      newRows := newRows + pushed;
    }
    assert flags[..|rows|] == flags && cands[..|rows|] == cands;
  }

  /** `autoGenerateChecklists(sheetName)`: the generated rows are appended
      in one request, and only when there is at least one. */
  method AutoGenerate(store: Store, name: string, ids: seq<string>, now: Clock) returns (res: Result<()>)
    requires ValidClock(now)
    requires name in store.sheets ==> |ids| == |store.sheets[name].data|
    modifies store
    ensures name !in old(store.sheets) ==> res == Err(StoreFailure) && store.sheets == old(store.sheets)
    ensures name in old(store.sheets) ==>
      var rows := old(store.sheets)[name].data;
      var generated := Generated(rows, ids, rows, MomentOf(now));
      res == Ok(())
      && store.sheets == if generated == [] then old(store.sheets) else AppendTo(old(store.sheets), name, generated)
  {
    var fetched := store.Get(name);
    if fetched.Err? {
      return Err(fetched.error);
    }
    var newRows := GenerateRows(fetched.value, ids, now);
    if |newRows| > 0 {
      var _ := store.Append(name, newRows);
    }
    res := Ok(());
  }

  /** `Math.floor((now - deadline) / (1000 * 60 * 60 * 24))` on a row that
      is not done and whose deadline has passed; no `Delay` otherwise. */
  function Delay(r: Row, nowMs: int): (d: Option<int>)
    ensures d.Some? <==> Cell(r, 5) != Some("Done") && ParseCell(Cell(r, 3)).Some? && ParseCell(Cell(r, 3)).value < nowMs
    ensures d.Some? ==> 0 <= d.value
    ensures d.Some? ==> d.value * MsPerDay <= nowMs - ParseCell(Cell(r, 3)).value < (d.value + 1) * MsPerDay
  {
    if Cell(r, 5) == Some("Done") then None
    else
      match ParseCell(Cell(r, 3))
      case Some(t) => if t < nowMs then Some((nowMs - t) / MsPerDay) else None
      case None => None
  }

  /** One checklist of the GET response: the row's fields and its `Delay`. */
  datatype Entry = Entry(item: Checklist.Item, delay: Option<int>)

  /** `rows.map(...)` of the GET route at time `nowMs`. */
  function Entries(rows: seq<Row>, nowMs: int): (es: seq<Entry>)
    ensures |es| == |rows|
    ensures forall k :: 0 <= k < |rows| ==> es[k] == Entry(Checklist.ItemOf(rows[k]), Delay(rows[k], nowMs))
  {
    seq(|rows|, k requires 0 <= k < |rows| => Entry(Checklist.ItemOf(rows[k]), Delay(rows[k], nowMs)))
  }

  /** GET `/`: generate, fetch again, and list every row with its delay. */
  method List(store: Store, user: string, ids: seq<string>, now: Clock) returns (res: Result<seq<Entry>>)
    requires ValidClock(now)
    requires Checklist.SheetOf(user) in store.sheets ==> |ids| == |store.sheets[Checklist.SheetOf(user)].data|
    modifies store
    ensures Checklist.SheetOf(user) !in old(store.sheets) ==> res == Err(StoreFailure) && store.sheets == old(store.sheets)
    ensures Checklist.SheetOf(user) in old(store.sheets) ==>
      var name := Checklist.SheetOf(user);
      var rows := old(store.sheets)[name].data;
      var table := rows + Generated(rows, ids, rows, MomentOf(now));
      && store.sheets == old(store.sheets)[name := Sheet(old(store.sheets)[name].header, table)]
      && res == Ok(Entries(table, Millis(now)))
  {
    var name := Checklist.SheetOf(user);
    var generated := AutoGenerate(store, name, ids, now);
    if generated.Err? {
      return Err(generated.error);
    }
    assert old(store.sheets)[name].data + [] == old(store.sheets)[name].data;
    var fetched := store.Get(name);
    res := Ok(Entries(fetched.value, Millis(now)));
  }

  /** POST `/`: no field is checked; the deadline is always computed. */
  method Create(store: Store, user: string, name: Option<string>, format: Option<string>, id: string, now: Clock)
    returns (res: Result<string>)
    requires ValidClock(now)
    modifies store
    ensures Checklist.SheetOf(user) !in old(store.sheets) ==> res == Err(StoreFailure) && store.sheets == old(store.sheets)
    ensures Checklist.SheetOf(user) in old(store.sheets) ==>
      res == Ok(id)
      && store.sheets == AppendTo(old(store.sheets), Checklist.SheetOf(user),
           [Checklist.PendingRow(id, Text(name), Checklist.Today(now), Checklist.DeadlineText(format, now), Text(format))])
  {
    var today := Checklist.Today(now);
    var initialDeadline := Checklist.DeadlineText(format, now);
    var ok := store.Append(Checklist.SheetOf(user), [Checklist.PendingRow(id, Text(name), today, initialDeadline, Text(format))]);
    if !ok {
      return Err(StoreFailure);
    }
    res := Ok(id);
  }

  /** PATCH `/done/:id`: stamp the found row, then append its next instance,
      dated with the date part of the stamp. */
  method MarkDone(store: Store, user: string, id: string, newId: string, now: Clock) returns (res: Result<string>)
    requires ValidClock(now)
    modifies store
    ensures Checklist.SheetOf(user) !in old(store.sheets) ==> res == Err(DoneFailure) && store.sheets == old(store.sheets)
    ensures Checklist.SheetOf(user) in old(store.sheets) ==>
      var name := Checklist.SheetOf(user);
      var rows := old(store.sheets)[name].data;
      var idx := FindIndex(rows, id);
      if idx == -1 then res == Err(Checklist.NotFound) && store.sheets == old(store.sheets)
      else
        var stamp := FormatTimestamp(now);
        res == Ok(stamp)
        && store.sheets == AppendTo(ReplaceAt(old(store.sheets), name, idx, MarkedDone(rows[idx], stamp)),
                                    name, [NextRow(rows[idx], newId, MomentOf(now))])
  {
    var name := Checklist.SheetOf(user);
    var fetched := store.Get(name);
    if fetched.Err? {
      return Err(DoneFailure);
    }
    var rows := fetched.value;
    var idx := FindIndex(rows, id);
    if idx == -1 {
      return Err(Checklist.NotFound);
    }
    var format, rowName := Cell(rows[idx], 6), Cell(rows[idx], 1);
    var stamp := FormatTimestamp(now);
    store.Update(name, idx + 2, MarkedDone(rows[idx], stamp));
    var today := DatePart(stamp);
    var newDeadline := Checklist.DeadlineText(format, now);
    var next := Checklist.PendingRow(newId, Text(rowName), today, newDeadline, Text(format));
    assert next == NextRow(rows[idx], newId, MomentOf(now)) by { NextOfStamp(rows[idx], newId, now); }
    var _ := store.Append(name, [next]);
    res := Ok(stamp);
  }

  /** The row mark-done appends, dated with the date part of its stamp, is
      the next instance the generator would produce at the same moment. */
  lemma NextOfStamp(row: Row, newId: string, now: Clock)
    requires ValidClock(now)
    ensures Checklist.PendingRow(newId, Text(Cell(row, 1)), DatePart(FormatTimestamp(now)),
                                 Checklist.DeadlineText(Cell(row, 6), now), Text(Cell(row, 6)))
            == NextRow(row, newId, MomentOf(now))
  {
    DateOfTimestamp(now);
    MomentAgrees(now, Cell(row, 6));
  }

  /** DELETE `/:id`: the same handler as the checklist router's. */
  method Delete(store: Store, user: string, id: string) returns (res: Result<()>)
    modifies store
    ensures Checklist.SheetOf(user) !in old(store.sheets) ==> res == Err(StoreFailure) && store.sheets == old(store.sheets)
    ensures Checklist.SheetOf(user) in old(store.sheets) ==>
      var idx := FindIndex(old(store.sheets)[Checklist.SheetOf(user)].data, id);
      if idx == -1 then res == Err(Checklist.NotFound) && store.sheets == old(store.sheets)
      else res == Ok(()) && store.sheets == ClearAt(old(store.sheets), Checklist.SheetOf(user), idx)
  {
    res := Checklist.Delete(store, user, id);
  }

  // ---------------------------------------------------------------------
  // Properties of the generator

  /** `Keep` grows by the row the loop body pushes at step `k`. */
  lemma KeepStep(flags: seq<bool>, cands: seq<Row>, k: int)
    requires |flags| == |cands| && 0 <= k < |flags|
    ensures Keep(flags[..k + 1], cands[..k + 1]) == Keep(flags[..k], cands[..k]) + (if flags[k] then [cands[k]] else [])
  {
    assert flags[..k + 1][..k] == flags[..k] && cands[..k + 1][..k] == cands[..k];
  }

  /** A row is kept exactly when it is a candidate whose flag is set. */
  lemma {:induction false} KeepMembers(flags: seq<bool>, cands: seq<Row>)
    requires |flags| == |cands|
    ensures forall g :: g in Keep(flags, cands) <==> exists k :: 0 <= k < |flags| && flags[k] && g == cands[k]
  {
    if flags != [] {
      var n := |flags| - 1;
      KeepMembers(flags[..n], cands[..n]);
      assert forall k :: 0 <= k < n ==> flags[..n][k] == flags[k] && cands[..n][k] == cands[k];
    }
  }

  /** An identifier no candidate carries is carried by no kept row. */
  lemma {:induction false} KeepAvoids(flags: seq<bool>, cands: seq<Row>, id: string)
    requires |flags| == |cands|
    requires forall k :: 0 <= k < |cands| ==> Cell(cands[k], 0) != Some(id)
    ensures CountId(Keep(flags, cands), id) == 0
    ensures FindIndex(Keep(flags, cands), id) == -1
  {
    if flags != [] {
      var n := |flags| - 1;
      var head := Keep(flags[..n], cands[..n]);
      var last := if flags[n] then [cands[n]] else [];
      KeepAvoids(flags[..n], cands[..n], id);
      CountIdAppend(head, last, id);
      FindNoneConcat(head, last, id);
    }
  }

  /** The one candidate carrying an identifier is kept once when its flag
      is set, and otherwise not at all. */
  lemma {:induction false} KeepCount(flags: seq<bool>, cands: seq<Row>, k: int, id: string)
    requires |flags| == |cands| && 0 <= k < |cands| && Cell(cands[k], 0) == Some(id)
    requires forall j :: 0 <= j < |cands| && j != k ==> Cell(cands[j], 0) != Some(id)
    ensures CountId(Keep(flags, cands), id) == if flags[k] then 1 else 0
  {
    var n := |flags| - 1;
    var head := Keep(flags[..n], cands[..n]);
    var last := if flags[n] then [cands[n]] else [];
    CountIdAppend(head, last, id);
    if k == n {
      KeepAvoids(flags[..n], cands[..n], id);
    } else {
      KeepCount(flags[..n], cands[..n], k, id);
    }
  }

  /** Candidates with distinct identifiers that the table lacks keep the
      identifiers of the table unique once the kept rows are appended. */
  lemma {:induction false} KeepIdsUnique(base: seq<Row>, flags: seq<bool>, cands: seq<Row>)
    requires |flags| == |cands| && UniqueIds(base)
    requires forall k :: 0 <= k < |cands| ==> Cell(cands[k], 0).Some? && FindIndex(base, Cell(cands[k], 0).value) == -1
    requires forall i, j :: 0 <= i < j < |cands| ==> Cell(cands[i], 0) != Cell(cands[j], 0)
    ensures UniqueIds(base + Keep(flags, cands))
  {
    if flags == [] {
      assert base + [] == base;
    } else {
      var n := |flags| - 1;
      var head := Keep(flags[..n], cands[..n]);
      KeepIdsUnique(base, flags[..n], cands[..n]);
      if flags[n] {
        var id := Cell(cands[n], 0).value;
        KeepAvoids(flags[..n], cands[..n], id);
        FindNoneConcat(base, head, id);
        FreshAppend(base + head, cands[n], id);
        assert base + head + [cands[n]] == base + Keep(flags, cands);
      } else {
        assert base + head == base + Keep(flags, cands);
      }
    }
  }

  /** The generated rows are exactly the next instances of the triggering
      rows: `[ids[k], name, today, next deadline, "", "Pending", format]`
      for each row `k` that triggers, and nothing else. */
  lemma GeneratedRows(rows: seq<Row>, ids: seq<string>, snapshot: seq<Row>, m: Moment)
    requires |ids| == |rows|
    ensures forall g :: g in Generated(rows, ids, snapshot, m) <==>
      exists k :: 0 <= k < |rows| && Triggers(rows[k], snapshot, m) && g == NextRow(rows[k], ids[k], m)
  {
    KeepMembers(Flags(rows, snapshot, m), Nexts(rows, ids, m));
  }

  /** With distinct fresh identifiers, row `k` gives rise to exactly one
      generated row when it triggers and to none otherwise. */
  lemma GeneratedCount(rows: seq<Row>, ids: seq<string>, snapshot: seq<Row>, m: Moment, k: int)
    requires |ids| == |rows| && 0 <= k < |rows|
    requires forall i, j :: 0 <= i < j < |ids| ==> ids[i] != ids[j]
    ensures CountId(Generated(rows, ids, snapshot, m), ids[k]) == if Triggers(rows[k], snapshot, m) then 1 else 0
  {
    var cands := Nexts(rows, ids, m);
    assert forall j :: 0 <= j < |cands| ==> Cell(cands[j], 0) == Some(ids[j]);
    KeepCount(Flags(rows, snapshot, m), cands, k, ids[k]);
  }

  /** An identifier not among `ids` is carried by no generated row. */
  lemma GeneratedAvoids(rows: seq<Row>, ids: seq<string>, snapshot: seq<Row>, m: Moment, id: string)
    requires |ids| == |rows|
    requires forall k :: 0 <= k < |ids| ==> ids[k] != id
    ensures CountId(Generated(rows, ids, snapshot, m), id) == 0
    ensures FindIndex(Generated(rows, ids, snapshot, m), id) == -1
  {
    var cands := Nexts(rows, ids, m);
    assert forall j :: 0 <= j < |cands| ==> Cell(cands[j], 0) == Some(ids[j]);
    KeepAvoids(Flags(rows, snapshot, m), cands, id);
  }

  /** Fresh, distinct identifiers keep the identifiers of the table unique
      once the generated rows are appended to it. */
  lemma GeneratedKeepsIdsUnique(base: seq<Row>, rows: seq<Row>, ids: seq<string>, snapshot: seq<Row>, m: Moment)
    requires |ids| == |rows|
    requires UniqueIds(base)
    requires forall i, j :: 0 <= i < j < |ids| ==> ids[i] != ids[j]
    requires forall k :: 0 <= k < |ids| ==> FindIndex(base, ids[k]) == -1
    ensures UniqueIds(base + Generated(rows, ids, snapshot, m))
  {
    var cands := Nexts(rows, ids, m);
    assert forall j :: 0 <= j < |cands| ==> Cell(cands[j], 0) == Some(ids[j]);
    KeepIdsUnique(base, Flags(rows, snapshot, m), cands);
  }

  /** The overdue branch has no duplicate guard: running the generator a
      second time with the same clock produces another next instance of
      every row that is still overdue. */
  lemma RerunRepeatsOverdue(rows: seq<Row>, ids: seq<string>, ids2: seq<string>, m: Moment, k: int)
    requires |ids| == |rows| && 0 <= k < |rows| && Overdue(rows[k], m)
    requires |ids2| == |rows| + |Generated(rows, ids, rows, m)|
    ensures var table := rows + Generated(rows, ids, rows, m);
      NextRow(rows[k], ids[k], m) in Generated(rows, ids, rows, m)
      && NextRow(rows[k], ids2[k], m) in Generated(table, ids2, table, m)
  {
    var table := rows + Generated(rows, ids, rows, m);
    GeneratedRows(rows, ids, rows, m);
    GeneratedRows(table, ids2, table, m);
    assert table[k] == rows[k];
  }

  /** The (name, deadline) pair a row is listed under. */
  function Pair(r: Row): (string, string)
  {
    (Text(Cell(r, 1)), Text(Cell(r, 3)))
  }

  function Pairs(rows: seq<Row>): set<(string, string)>
  {
    set r | r in rows :: Pair(r)
  }

  /** A next instance is listed under its source's name and next deadline,
      and so is the next instance of a next instance. */
  lemma PairOfNext(r: Row, id: string, id2: string, m: Moment)
    ensures Pair(NextRow(r, id, m)) == (Text(Cell(r, 1)), DeadlineAt(m, Cell(r, 6)))
    ensures Pair(NextRow(NextRow(r, id, m), id2, m)) == Pair(NextRow(r, id, m))
  {
  }

  /** Running the generator a second time with the same clock adds no
      (name, deadline) pair that the table did not already hold: the read
      path is idempotent in the set of pairs, though not in the rows. */
  lemma SecondRunAddsNoPair(rows: seq<Row>, ids: seq<string>, ids2: seq<string>, m: Moment)
    requires |ids| == |rows|
    requires |ids2| == |rows| + |Generated(rows, ids, rows, m)|
    ensures var table := rows + Generated(rows, ids, rows, m);
      Pairs(table + Generated(table, ids2, table, m)) == Pairs(table)
  {
    var gen := Generated(rows, ids, rows, m);
    var table := rows + gen;
    var gen2 := Generated(table, ids2, table, m);
    GeneratedRows(rows, ids, rows, m);
    GeneratedRows(table, ids2, table, m);
    forall g | g in gen2
      ensures Pair(g) in Pairs(table)
    {
      var k :| 0 <= k < |table| && Triggers(table[k], table, m) && g == NextRow(table[k], ids2[k], m);
      if k < |rows| {
        var x := rows[k];
        assert table[k] == x;
        assert Triggers(x, rows, m) by {
          if !Overdue(x, m) {
            var dl := DeadlineAt(m, Cell(x, 6));
            assert !Exists(table, Cell(x, 1), dl);
            assert forall y :: y in rows ==> y in table;
          }
        }
        var p := NextRow(x, ids[k], m);
        assert p in gen;
        PairOfNext(x, ids[k], ids2[k], m);
        PairOfNext(x, ids2[k], ids[k], m);
        assert p in table;
      } else {
        var p := table[k];
        assert p in gen;
        var k' :| 0 <= k' < |rows| && Triggers(rows[k'], rows, m) && p == NextRow(rows[k'], ids[k'], m);
        PairOfNext(rows[k'], ids[k'], ids2[k], m);
      }
    }
    forall q | q in Pairs(table + gen2)
      ensures q in Pairs(table)
    {
      var r :| r in table + gen2 && q == Pair(r);
    }
  }

  /** Every deadline a real clock reading gives is a ten-character date. */
  lemma DeadlinesAreDates(now: Clock, format: Option<string>)
    requires ValidClock(now)
    ensures |DeadlineAt(MomentOf(now), format)| == 10
  {
    MomentAgrees(now, format);
  }

  /** The done guard reads the table as fetched before the run, so two
      identical done rows, whose deadline is not yet their next one, both
      produce a next instance, and the run appends two rows under one
      (name, deadline). */
  lemma DuplicateWithinOneRun(done: Row, ids: seq<string>, m: Moment)
    requires |ids| == 2
    requires Cell(done, 5) == Some("Done") && Cell(done, 3) != Some(DeadlineAt(m, Cell(done, 6)))
    ensures var gen := Generated([done, done], ids, [done, done], m);
      |gen| == 2 && (gen[0] == gen[1] <==> ids[0] == ids[1])
    ensures var gen := Generated([done, done], ids, [done, done], m);
      |gen| == 2 && Pair(gen[0]) == Pair(gen[1])
  {
    var rows := [done, done];
    assert !Exists(rows, Cell(done, 1), DeadlineAt(m, Cell(done, 6)));
    var flags, cands := Flags(rows, rows, m), Nexts(rows, ids, m);
    assert flags == [true, true];
    KeepStep(flags, cands, 0);
    KeepStep(flags, cands, 1);
    assert flags[..0] == [] && flags[..2] == flags && cands[..2] == cands;
    assert Generated(rows, ids, rows, m) == [cands[0], cands[1]];
  }

  /** A pending row whose deadline is the date `d`, listed on a later day,
      is late by the number of whole days between `d` and today. */
  lemma DelayCountsDays(r: Row, d: Date, now: Clock)
    requires ValidClock(now) && ValidDate(d) && 0 <= d.year <= 9999
    requires Cell(r, 5) != Some("Done") && Cell(r, 3) == Some(FormatDate(d))
    requires DayNumber(d) < DayNumber(now.today)
    ensures Delay(r, Millis(now)) == Some(DayNumber(now.today) - DayNumber(d))
  {
    var n := DayNumber(now.today) - DayNumber(d);
    assert ParseCell(Cell(r, 3)) == Some(DayStart(d)) by { DateInstant(d); }
    assert Millis(now) - DayStart(d) == n * MsPerDay + now.msOfDay;
    DelayOfGap(r, Millis(now), DayStart(d), n, now.msOfDay);
  }

  /** A deadline `n` whole days and `rest` milliseconds in the past gives a delay of `n`. */
  lemma DelayOfGap(r: Row, nowMs: int, t: int, n: int, rest: int)
    requires Cell(r, 5) != Some("Done") && ParseCell(Cell(r, 3)) == Some(t)
    requires 1 <= n && 0 <= rest < MsPerDay && nowMs - t == n * MsPerDay + rest
    ensures Delay(r, nowMs) == Some(n)
  {
  }

  /** Once mark-done has appended the next instance, the stamped row no
      longer makes the generator add one at the same moment: the table holds
      a row with its name and next deadline. */
  lemma DoneRowNotRegenerated(row: Row, stamp: string, newId: string, m: Moment, table: seq<Row>)
    requires Cell(row, 1).Some? && NextRow(row, newId, m) in table
    ensures !Triggers(MarkedDone(row, stamp), table, m)
  {
    var done := MarkedDone(row, stamp);
    assert Cell(done, 1) == Cell(row, 1) && Cell(done, 6) == Cell(row, 6);
    var next := NextRow(row, newId, m);
    assert Cell(next, 3) == Some(DeadlineAt(m, Cell(done, 6))) && Cell(next, 1) == Cell(done, 1);
  }

  /** A table of one row generates that row's next instance exactly when
      the row triggers. */
  lemma GeneratedSingle(row: Row, id: string, snapshot: seq<Row>, m: Moment)
    ensures Generated([row], [id], snapshot, m) == if Triggers(row, snapshot, m) then [NextRow(row, id, m)] else []
  {
    var flags, cands := Flags([row], snapshot, m), Nexts([row], [id], m);
    KeepStep(flags, cands, 0);
    assert flags[..1] == flags && cands[..1] == cands && flags[..0] == [];
  }

  /** The cells a pending row is built from read back from it. */
  lemma PendingCells(id: string, name: string, created: string, deadline: string, format: string)
    ensures var r := Checklist.PendingRow(id, name, created, deadline, format);
      Cell(r, 1) == Some(name) && Cell(r, 3) == Some(deadline) && Cell(r, 5) == Some("Pending") && Cell(r, 6) == Some(format)
  {
  }

  /** The checklist of the scenario below: created on `day0`, due the
      day after, Daily, never marked done. */
  function Standup(id: string, day0: Date): Row
    requires ValidDate(day0) && 0 <= day0.year <= 9998
  {
    Checklist.PendingRow(id, "Standup", FormatDate(day0), FormatDate(NextDay(day0)), "Daily")
  }

  /** Listed on day 2, the Standup checklist is overdue and the run appends
      one Pending instance due on day 3. */
  lemma StandupGenerated(id: string, newId: string, day0: Date, now: Clock)
    requires ValidDate(day0) && 0 <= day0.year && ValidClock(now)
    requires now.today == NextDay(NextDay(day0))
    ensures Generated([Standup(id, day0)], [newId], [Standup(id, day0)], MomentOf(now))
      == [Checklist.PendingRow(newId, "Standup", FormatDate(now.today), FormatDate(NextDay(now.today)), "Daily")]
  {
    var row, m := Standup(id, day0), MomentOf(now);
    PendingCells(id, "Standup", FormatDate(day0), FormatDate(NextDay(day0)), "Daily");
    assert Triggers(row, [row], m) by {
      StandupOverdue(id, day0, now);
    }
    assert NextRow(row, newId, m)
      == Checklist.PendingRow(newId, "Standup", FormatDate(now.today), FormatDate(NextDay(now.today)), "Daily") by {
      MomentAgrees(now, Some("Daily"));
    }
    GeneratedSingle(row, newId, [row], m);
  }

  /** On day 2 the Standup checklist's day-1 deadline has passed. */
  lemma StandupOverdue(id: string, day0: Date, now: Clock)
    requires ValidDate(day0) && 0 <= day0.year && ValidClock(now)
    requires now.today == NextDay(NextDay(day0))
    ensures Overdue(Standup(id, day0), MomentOf(now))
  {
    NextDayCount(NextDay(day0));
    DelayCountsDays(Standup(id, day0), NextDay(day0), now);
  }

  /** Listed on day 2, the Standup checklist is one day late and its new
      instance, due on day 3, is not late. */
  lemma StandupDelays(id: string, newId: string, day0: Date, now: Clock)
    requires ValidDate(day0) && 0 <= day0.year && ValidClock(now)
    requires now.today == NextDay(NextDay(day0))
    ensures Delay(Standup(id, day0), Millis(now)) == Some(1)
    ensures Delay(Checklist.PendingRow(newId, "Standup", FormatDate(now.today), FormatDate(NextDay(now.today)), "Daily"), Millis(now)) == None
  {
    var day1 := NextDay(day0);
    NextDayCount(day1);
    DelayCountsDays(Standup(id, day0), day1, now);
    var later := NextDay(now.today);
    NextDayCount(now.today);
    DateInstant(later);
    var next := Checklist.PendingRow(newId, "Standup", FormatDate(now.today), FormatDate(later), "Daily");
    assert ParseCell(Cell(next, 3)) == Some(DayStart(later));
  }

  /** The scenario of a Daily checklist created on day 0 with its deadline
      on day 1 and never marked done, listed on day 2: the response holds
      the original row, one day late, and a new Pending instance due on day
      3 (day 2 plus one), not late. */
  lemma StandupScenario(id: string, newId: string, day0: Date, now: Clock)
    requires ValidDate(day0) && 0 <= day0.year && ValidClock(now)
    requires now.today == NextDay(NextDay(day0))
    ensures var row := Standup(id, day0);
      var next := Checklist.PendingRow(newId, "Standup", FormatDate(now.today), FormatDate(NextDay(now.today)), "Daily");
      && Generated([row], [newId], [row], MomentOf(now)) == [next]
      && Entries([row] + [next], Millis(now)) == [Entry(Checklist.ItemOf(row), Some(1)), Entry(Checklist.ItemOf(next), None)]
  {
    StandupGenerated(id, newId, day0, now);
    StandupDelays(id, newId, day0, now);
  }

  // ---------------------------------------------------------------------
  // The generator as the file is written

  /** What calling `getNextDeadline` raises in this file: the name is
      imported from the file itself and is undefined while the file loads,
      and the GET route's catch block answers 500 with the message. */
  const NotAFunction: Error := Error(500, "getNextDeadline is not a function")

  /** The loop of `autoGenerateChecklists` with the imported, undefined
      `getNextDeadline`: the first row that reaches a call throws. An
      overdue row reaches one, and so does every done row, since the done
      branch calls it before its duplicate guard; only a table with neither
      gets through, with nothing generated. */
  function GenerateAsWritten(rows: seq<Row>, m: Moment): (r: Result<seq<Row>>)
    ensures r.Ok? <==> forall k :: 0 <= k < |rows| ==> !Overdue(rows[k], m) && Cell(rows[k], 5) != Some("Done")
    ensures r.Ok? ==> r.value == []
    ensures r.Err? ==> r.error == NotAFunction
    decreases |rows|
  {
    if rows == [] then Ok([])
    else if Overdue(rows[0], m) || Cell(rows[0], 5) == Some("Done") then Err(NotAFunction)
    else
      assert forall k :: 1 <= k < |rows| ==> rows[k] == rows[1..][k - 1];
      GenerateAsWritten(rows[1..], m)
  }

  /** Where the file as written gets through, the generator with the
      checklist router's `getNextDeadline` generates nothing either: the two
      differ only where the written one throws. */
  lemma AsWrittenAgreesWhenQuiet(rows: seq<Row>, ids: seq<string>, snapshot: seq<Row>, m: Moment)
    requires |ids| == |rows| && GenerateAsWritten(rows, m).Ok?
    ensures Generated(rows, ids, snapshot, m) == []
  {
    var flags := Flags(rows, snapshot, m);
    assert forall k :: 0 <= k < |rows| ==> !flags[k];
    KeepNone(flags, Nexts(rows, ids, m));
  }

  /** No flag set keeps no row. */
  lemma {:induction false} KeepNone(flags: seq<bool>, cands: seq<Row>)
    requires |flags| == |cands| && forall k :: 0 <= k < |flags| ==> !flags[k]
    ensures Keep(flags, cands) == []
  {
    if flags != [] {
      var n := |flags| - 1;
      KeepNone(flags[..n], cands[..n]);
    }
  }

  /** The Standup scenario of a Daily checklist overdue on day 2: the file
      as written answers GET `/` with 500, where the intended generator
      appends the next instance. */
  lemma StandupFailsAsWritten(id: string, newId: string, day0: Date, now: Clock)
    requires ValidDate(day0) && 0 <= day0.year && ValidClock(now)
    requires now.today == NextDay(NextDay(day0))
    ensures GenerateAsWritten([Standup(id, day0)], MomentOf(now)) == Err(NotAFunction)
    ensures |Generated([Standup(id, day0)], [newId], [Standup(id, day0)], MomentOf(now))| == 1
  {
    StandupOverdue(id, day0, now);
    StandupGenerated(id, newId, day0, now);
  }
}
