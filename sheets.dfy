/** The spreadsheet that serves as the portal's database: named sheets of
    rows of text cells, addressed the way the spreadsheet's values API
    addresses them. Sheet row 1 is the header; the data row at 0-based
    index `i` of what a `A2:…` read returns is sheet row `i + 2`. */
module Sheets {
  import opened Http

  type Row = seq<string>

  /** A sheet: its header row (sheet row 1) and its data rows, `data[i]`
      being sheet row `i + 2`. A cleared row stays in place as `[]`. */
  datatype Sheet = Sheet(header: Row, data: seq<Row>)

  /** `r[k]` on a fetched row: `undefined` past the end of the row. */
  function Cell(r: Row, k: nat): Option<string>
  {
    if k < |r| then Some(r[k]) else None
  }

  /** What a JavaScript value becomes once written to a cell: every value
      the routes write is a string or `undefined`, and `undefined` is sent
      as `null`, which the store leaves empty. */
  function Text(c: Option<string>): string
  {
    match c
    case Some(s) => s
    case None => ""
  }

  /** `${v}` in a template literal: `undefined` is spelled out. */
  function Interpolated(c: Option<string>): string
  {
    match c
    case Some(s) => s
    case None => "undefined"
  }

  /** `r[k] = v` on a fetched row. A row shorter than `k + 1` grows; the gap
      is sent as `null` and so reads back as empty cells. */
  function SetCell(r: Row, k: nat, v: string): (w: Row)
    ensures |w| == if k < |r| then |r| else k + 1
    ensures Cell(w, k) == Some(v)
    ensures forall j: nat :: j != k && j < |r| ==> Cell(w, j) == Cell(r, j)
    ensures forall j: nat :: j != k ==> Text(Cell(w, j)) == Text(Cell(r, j))
  {
    if k < |r| then r[k := v] else r + seq(k - |r|, _ => "") + [v]
  }

  /** `r[k] = v` where `v` may be `undefined`: the store skips a `null`
      cell in an update, so an undefined value leaves the cell as it was. */
  function WriteCell(r: Row, k: nat, v: Option<string>): (w: Row)
    ensures v.None? ==> w == r
    ensures v.Some? ==> Cell(w, k) == v
    ensures forall j: nat :: j != k ==> Text(Cell(w, j)) == Text(Cell(r, j))
  {
    match v
    case None => r
    case Some(s) => SetCell(r, k, s)
  }

  /** `row[4] = doneTime; row[5] = "Done"`: the stamp that the checklist and
      delegation routes write into a row they complete. */
  function MarkedDone(row: Row, stamp: string): (w: Row)
    ensures |w| == if |row| < 6 then 6 else |row|
    ensures Cell(w, 4) == Some(stamp) && Cell(w, 5) == Some("Done")
    ensures forall j: nat :: j != 4 && j != 5 && j < |row| ==> Cell(w, j) == Cell(row, j)
    ensures forall j: nat :: j != 4 && j != 5 ==> Text(Cell(w, j)) == Text(Cell(row, j))
  {
    SetCell(SetCell(row, 4, stamp), 5, "Done")
  }

  /** The cells `0 .. width - 1` of a row, as a projection onto named fields reads them. */
  function Project(r: Row, width: nat): (cells: seq<Option<string>>)
    ensures |cells| == width
    ensures forall k :: 0 <= k < width ==> cells[k] == Cell(r, k)
  {
    seq(width, k requires 0 <= k < width => Cell(r, k))
  }

  /** The row a sequence of fields spells: the defined cells up to the first undefined one. */
  function Restore(cells: seq<Option<string>>): Row
  {
    if cells == [] || cells[0].None? then [] else [cells[0].value] + Restore(cells[1..])
  }

  /** A projection onto at least as many fields as the row has cells loses
      nothing: the row can be read back from the fields. */
  lemma {:induction false} RestoreProject(r: Row, width: nat)
    requires |r| <= width
    ensures Restore(Project(r, width)) == r
    decreases width
  {
    var cells := Project(r, width);
    if r != [] {
      assert cells[1..] == Project(r[1..], width - 1);
      RestoreProject(r[1..], width - 1);
      assert r == [r[0]] + r[1..];
    } else if width > 0 {
      assert cells[0].None?;
    }
  }

  /** `rows.findIndex(r => r[col] === v)`: the first row whose cell `col`
      is `v` (strict equality, so an undefined `v` matches a missing cell),
      or -1 when there is none. */
  function FindBy(rows: seq<Row>, col: nat, v: Option<string>): (i: int)
    ensures -1 <= i < |rows|
    ensures 0 <= i ==> Cell(rows[i], col) == v
    ensures 0 <= i ==> forall j :: 0 <= j < i ==> Cell(rows[j], col) != v
    ensures i == -1 <==> forall j :: 0 <= j < |rows| ==> Cell(rows[j], col) != v
    decreases |rows|
  {
    if rows == [] then -1
    else if Cell(rows[0], col) == v then 0
    else
      var i := FindBy(rows[1..], col, v);
      assert forall j :: 1 <= j < |rows| ==> rows[j] == rows[1..][j - 1];
      if i == -1 then -1 else i + 1
  }

  /** The lookup every route performs: `rows.findIndex(r => r[0] === id)`. */
  function FindIndex(rows: seq<Row>, id: string): int
  {
    FindBy(rows, 0, Some(id))
  }

  /** How many rows carry the identifier `id` in column 0. */
  function CountId(rows: seq<Row>, id: string): nat
  {
    if rows == [] then 0
    else CountId(rows[..|rows| - 1], id) + (if Cell(rows[|rows| - 1], 0) == Some(id) then 1 else 0)
  }

  lemma {:induction false} CountIdAppend(a: seq<Row>, b: seq<Row>, id: string)
    ensures CountId(a + b, id) == CountId(a, id) + CountId(b, id)
    decreases |b|
  {
    if b == [] {
      assert a + b == a;
    } else {
      var c := a + b;
      assert c[..|c| - 1] == a + b[..|b| - 1];
      assert c[|c| - 1] == b[|b| - 1];
      CountIdAppend(a, b[..|b| - 1], id);
    }
  }

  /** An identifier absent from both parts of a table is absent from the table. */
  lemma FindNoneConcat(a: seq<Row>, b: seq<Row>, id: string)
    ensures FindIndex(a + b, id) == -1 <==> FindIndex(a, id) == -1 && FindIndex(b, id) == -1
  {
    var c := a + b;
    assert forall j :: 0 <= j < |a| ==> c[j] == a[j];
    assert forall j :: 0 <= j < |b| ==> c[|a| + j] == b[j];
  }

  /** The identifiers of a table are unique: no two data rows share column 0. */
  predicate UniqueIds(rows: seq<Row>)
  {
    forall i, j :: 0 <= i < j < |rows| && Cell(rows[i], 0).Some? ==> Cell(rows[i], 0) != Cell(rows[j], 0)
  }

  /** With unique identifiers, the row `findIndex` finds is the only row
      carrying the identifier. */
  lemma FoundIsOnly(rows: seq<Row>, id: string, k: int)
    requires UniqueIds(rows) && 0 <= k < |rows| && Cell(rows[k], 0) == Some(id)
    ensures FindIndex(rows, id) == k
  {
    var i := FindIndex(rows, id);
    assert i != -1 && !(i < k);
  }

  /** A row appended under a fresh identifier is found at the end, and the
      identifiers stay unique. */
  lemma FreshAppend(rows: seq<Row>, row: Row, id: string)
    requires FindIndex(rows, id) == -1 && Cell(row, 0) == Some(id)
    ensures FindIndex(rows + [row], id) == |rows|
    ensures UniqueIds(rows) ==> UniqueIds(rows + [row])
  {
    var all := rows + [row];
    assert forall j :: 0 <= j < |rows| ==> all[j] == rows[j];
    assert all[|rows|] == row;
  }

  /** Rewriting a found row without touching its column 0 leaves every
      lookup by identifier as it was. */
  lemma ReplaceKeepsLookup(rows: seq<Row>, i: int, row: Row, id: string)
    requires 0 <= i < |rows| && Cell(row, 0) == Cell(rows[i], 0)
    ensures FindIndex(rows[i := row], id) == FindIndex(rows, id)
    ensures UniqueIds(rows) ==> UniqueIds(rows[i := row])
  {
    var after := rows[i := row];
    assert forall j :: 0 <= j < |rows| ==> Cell(after[j], 0) == Cell(rows[j], 0);
  }

  /** `append` to a sheet: the rows follow its existing data rows. */
  function AppendTo(m: map<string, Sheet>, name: string, rows: seq<Row>): map<string, Sheet>
    requires name in m
  {
    m[name := Sheet(m[name].header, m[name].data + rows)]
  }

  /** `update` of sheet row `i + 2`: data row `i` becomes `row`. */
  function ReplaceAt(m: map<string, Sheet>, name: string, i: int, row: Row): map<string, Sheet>
    requires name in m && 0 <= i < |m[name].data|
  {
    m[name := Sheet(m[name].header, m[name].data[i := row])]
  }

  /** `clear` of sheet row `i + 2`: the row is blanked and keeps its position. */
  function ClearAt(m: map<string, Sheet>, name: string, i: int): map<string, Sheet>
    requires name in m && 0 <= i < |m[name].data|
  {
    ReplaceAt(m, name, i, [])
  }

  /** The tabular store: every sheet of the spreadsheet by title. Each
      method is one request to the store; a request naming a sheet the
      spreadsheet lacks fails. */
  class Store {
    var sheets: map<string, Sheet>

    constructor (initial: map<string, Sheet>)
      ensures sheets == initial
    {
      sheets := initial;
    }

    /** `values.get` of `name!A2:…`: the data rows. */
    method Get(name: string) returns (r: Result<seq<Row>>)
      ensures r.Ok? <==> name in sheets
      ensures r.Ok? ==> r.value == sheets[name].data
      ensures r.Err? ==> r.error == StoreFailure
    {
      if name in sheets {
        r := Ok(sheets[name].data);
      } else {
        r := Err(StoreFailure);
      }
    }

    /** `values.get` of `name!A:…`: the header row, then the data rows. */
    method GetAll(name: string) returns (r: Result<seq<Row>>)
      ensures r.Ok? <==> name in sheets
      ensures r.Ok? ==> r.value == [sheets[name].header] + sheets[name].data
      ensures r.Err? ==> r.error == StoreFailure
    {
      if name in sheets {
        r := Ok([sheets[name].header] + sheets[name].data);
      } else {
        r := Err(StoreFailure);
      }
    }

    /** `values.append` of `rows` to `name!A:…`. */
    method Append(name: string, rows: seq<Row>) returns (ok: bool)
      modifies this
      ensures ok == (name in old(sheets))
      ensures sheets == if ok then AppendTo(old(sheets), name, rows) else old(sheets)
    {
      ok := name in sheets;
      if ok {
        sheets := AppendTo(sheets, name, rows);
      }
    }

    /** `values.update` of the range `name!A<n>:…<n>` with one row. */
    method Update(name: string, rowNumber: int, row: Row)
      requires name in sheets && 2 <= rowNumber < |sheets[name].data| + 2
      modifies this
      ensures sheets == ReplaceAt(old(sheets), name, rowNumber - 2, row)
    {
      sheets := ReplaceAt(sheets, name, rowNumber - 2, row);
    }

    /** `values.clear` of the range `name!A<n>:…<n>`. */
    method Clear(name: string, rowNumber: int)
      requires name in sheets && 2 <= rowNumber < |sheets[name].data| + 2
      modifies this
      ensures sheets == ClearAt(old(sheets), name, rowNumber - 2)
    {
      sheets := ClearAt(sheets, name, rowNumber - 2);
    }

    /** `batchUpdate` with one `addSheet` request, followed by the write of
      its header row to `title!A1:…1`. Adding a title that exists fails. */
    method AddSheet(title: string, header: Row) returns (ok: bool)
      modifies this
      ensures ok == (title !in old(sheets))
      ensures sheets == if ok then old(sheets)[title := Sheet(header, [])] else old(sheets)
    {
      ok := title !in sheets;
      if ok {
        sheets := sheets[title := Sheet(header, [])];
      }
    }
  }
}
