/** The account routes of `routes/auth.js` on the `Employee` sheet, whose
    columns are EmployeeID, Name, Mobile, Password (a hash), Department and
    CreatedAt: registration, which also provisions the employee's three
    personal sheets, and login. Password hashing and its comparison are
    functions the caller passes in; the signed token is represented by the
    claims it would carry. */
module Auth {
  import opened Http
  import opened IsoTime
  import opened Sheets
  import Checklist
  import HelpTickets
  import Delegations

  const EmployeeSheet := "Employee"

  const MissingFields: Error := Error(400, "All fields required")
  const MobileTaken: Error := Error(400, "Mobile already registered")
  const UserNotFound: Error := Error(404, "User not found")
  const WrongPassword: Error := Error(401, "Incorrect password")
  /** The comparison throws when the password or the stored hash is undefined. */
  const CompareFailure: Error := Error(500, "Illegal arguments")

  const ChecklistHeader: Row := ["ChecklistID", "ChecklistName", "CreatedDate", "Deadline", "DoneDate", "Status", "Format"]
  const HelpTicketHeader: Row := ["TicketID", "Issue", "CreatedName", "AssignedTo", "CreatedDate", "DoneDate", "Status"]
  const DelegationHeader: Row := ["TaskID", "TaskName", "CreatedDate", "Deadline", "DoneDate", "Status", "Priority", "Notes"]

  function EmployeeRow(id: string, name: string, mobile: string, hashed: string, department: string, created: string): Row
  {
    [id, name, mobile, hashed, department, created]
  }

  /** The three sheets registration adds, in order, with their header rows. */
  function PersonalSheets(name: string): seq<(string, Row)>
  {
    [(Checklist.SheetOf(name), ChecklistHeader),
     (HelpTickets.SheetOf(name), HelpTicketHeader),
     (Delegations.SheetOf(name), DelegationHeader)]
  }

  /** The store after adding `sheets` in turn, and whether every addition
      succeeded; the first title that already exists ends the sequence. */
  datatype Outcome = Outcome(sheets: map<string, Sheet>, ok: bool)

  function Provision(m: map<string, Sheet>, sheets: seq<(string, Row)>): Outcome
    decreases |sheets|
  {
    if sheets == [] then Outcome(m, true)
    else if sheets[0].0 in m then Outcome(m, false)
    else Provision(m[sheets[0].0 := Sheet(sheets[0].1, [])], sheets[1..])
  }

  /** POST `/register`: all four fields are required and the mobile number
      must not be in column C of any employee row; the employee row is
      appended, then the three personal sheets are added one by one. A
      failing step ends the request and leaves the earlier writes. */
  method Register(store: Store, name: Option<string>, mobile: Option<string>, password: Option<string>,
                  department: Option<string>, id: string, hash: string -> string, now: Clock)
    returns (res: Result<string>)
    requires ValidClock(now)
    modifies store
    ensures !Present(name) || !Present(mobile) || !Present(password) || !Present(department) ==>
      res == Err(MissingFields) && store.sheets == old(store.sheets)
    ensures Present(name) && Present(mobile) && Present(password) && Present(department) ==>
      if EmployeeSheet !in old(store.sheets) then res == Err(StoreFailure) && store.sheets == old(store.sheets)
      else if FindBy(old(store.sheets)[EmployeeSheet].data, 2, mobile) != -1 then
        res == Err(MobileTaken) && store.sheets == old(store.sheets)
      else
        var row := EmployeeRow(id, name.value, mobile.value, hash(password.value), department.value, FormatTimestamp(now));
        var o := Provision(AppendTo(old(store.sheets), EmployeeSheet, [row]), PersonalSheets(name.value));
        store.sheets == o.sheets && res == (if o.ok then Ok(id) else Err(StoreFailure))
  {
    if !Present(name) || !Present(mobile) || !Present(password) || !Present(department) {
      return Err(MissingFields);
    }
    var fetched := store.Get(EmployeeSheet);
    if fetched.Err? {
      return Err(fetched.error);
    }
    if FindBy(fetched.value, 2, mobile) != -1 {
      return Err(MobileTaken);
    }
    var row := EmployeeRow(id, name.value, mobile.value, hash(password.value), department.value, FormatTimestamp(now));
    var ok := store.Append(EmployeeSheet, [row]);
    ok := AddPersonalSheets(store, name.value);
    if !ok {
      return Err(StoreFailure);
    }
    res := Ok(id);
  }

  /** The three `addSheet` requests of registration, each followed by the
      write of its header row; the first that fails ends the sequence. */
  method AddPersonalSheets(store: Store, name: string) returns (ok: bool)
    modifies store
    ensures Outcome(store.sheets, ok) == Provision(old(store.sheets), PersonalSheets(name))
  {
    var sheets := PersonalSheets(name);
    assert sheets[1..][0] == sheets[1] && sheets[1..][1..][0] == sheets[2] && sheets[1..][1..][1..] == [];
    ok := store.AddSheet(sheets[0].0, sheets[0].1);
    if !ok {
      return;
    }
    assert Provision(old(store.sheets), sheets) == Provision(store.sheets, sheets[1..]);
    ok := store.AddSheet(sheets[1].0, sheets[1].1);
    if !ok {
      return;
    }
    assert Provision(old(store.sheets), sheets) == Provision(store.sheets, sheets[1..][1..]);
    ok := store.AddSheet(sheets[2].0, sheets[2].1);
    assert Provision(old(store.sheets), sheets) == if ok then Provision(store.sheets, []) else Outcome(store.sheets, false);
  }

  /** The three personal sheets have different titles, none of them `Employee`. */
  lemma PersonalTitlesDistinct(name: string)
    ensures var s := PersonalSheets(name);
      s[0].0 != s[1].0 && s[0].0 != s[2].0 && s[1].0 != s[2].0
      && s[0].0 != EmployeeSheet && s[1].0 != EmployeeSheet && s[2].0 != EmployeeSheet
  {
    var s := PersonalSheets(name);
    assert s[1].0[|name| + 1] == 'H' && s[2].0[|name| + 1] == 'D';
    assert s[0].0[|s[0].0| - 1] == 't' && s[1].0[|s[1].0| - 1] == 's' && s[2].0[|s[2].0| - 1] == 's';
    assert EmployeeSheet[|EmployeeSheet| - 1] == 'e';
  }

  /** For a name whose sheets do not exist yet, registration adds the
      checklist sheet (7 columns), the help-ticket sheet (7 columns) and the
      delegation sheet (8 columns), all empty, and nothing else changes. */
  lemma ProvisionAddsPersonalSheets(m: map<string, Sheet>, name: string)
    requires forall k :: 0 <= k < 3 ==> PersonalSheets(name)[k].0 !in m
    ensures var o := Provision(m, PersonalSheets(name));
      && o.ok
      && o.sheets.Keys == m.Keys + {Checklist.SheetOf(name), HelpTickets.SheetOf(name), Delegations.SheetOf(name)}
      && (forall n :: n in m ==> o.sheets[n] == m[n])
      && o.sheets[Checklist.SheetOf(name)] == Sheet(ChecklistHeader, []) && |ChecklistHeader| == 7
      && o.sheets[HelpTickets.SheetOf(name)] == Sheet(HelpTicketHeader, []) && |HelpTicketHeader| == 7
      && o.sheets[Delegations.SheetOf(name)] == Sheet(DelegationHeader, []) && |DelegationHeader| == 8
  {
    var s := PersonalSheets(name);
    PersonalTitlesDistinct(name);
    assert s[0].0 !in m && s[1].0 !in m && s[2].0 !in m;
    var m1 := m[s[0].0 := Sheet(s[0].1, [])];
    var m2 := m1[s[1].0 := Sheet(s[1].1, [])];
    var m3 := m2[s[2].0 := Sheet(s[2].1, [])];
    assert s[1..][0] == s[1] && s[1..][1..][0] == s[2] && s[1..][1..][1..] == [];
    assert Provision(m, s) == Provision(m1, s[1..]);
    assert Provision(m1, s[1..]) == Provision(m2, s[1..][1..]);
    assert Provision(m2, s[1..][1..]) == Outcome(m3, true);
  }

  /** No two employee rows share a mobile number. */
  predicate MobilesUnique(rows: seq<Row>)
  {
    forall i, j :: 0 <= i < j < |rows| && Cell(rows[i], 2).Some? ==> Cell(rows[i], 2) != Cell(rows[j], 2)
  }

  /** The duplicate check keeps mobile numbers unique, and the appended row
      makes every later registration with the same number fail the check. */
  lemma RegisterKeepsMobilesUnique(rows: seq<Row>, row: Row)
    requires Cell(row, 2).Some? && FindBy(rows, 2, Cell(row, 2)) == -1
    ensures MobilesUnique(rows) ==> MobilesUnique(rows + [row])
    ensures FindBy(rows + [row], 2, Cell(row, 2)) == |rows|
  {
    var all := rows + [row];
    assert forall j :: 0 <= j < |rows| ==> all[j] == rows[j];
    assert all[|rows|] == row;
  }

  /** The claims the login token is signed over. */
  datatype Claims = Claims(employeeID: Option<string>, name: Option<string>, department: Option<string>)

  /** The login reply: the token's claims and the `user` object. */
  datatype Session = Session(token: Claims, employeeID: Option<string>, name: Option<string>, sheet: string)

  function SessionOf(user: Row): Session
  {
    Session(Claims(Cell(user, 0), Cell(user, 1), Cell(user, 4)), Cell(user, 0), Cell(user, 1),
            Delegations.SheetOf(Interpolated(Cell(user, 1))))
  }

  /** The decision of POST `/login` on the rows of `Employee!A:F` (the
      header row included): the first row whose column A is the identifier,
      then the comparison of the password with its stored hash. */
  function Authenticate(employees: seq<Row>, employeeID: Option<string>, password: Option<string>,
                        check: (string, string) -> bool): (r: Result<Session>)
    ensures r.Ok? ==> r.value.token.employeeID == employeeID && r.value.employeeID == employeeID
    ensures r == Err(UserNotFound) <==> forall k :: 0 <= k < |employees| ==> Cell(employees[k], 0) != employeeID
  {
    var i := FindBy(employees, 0, employeeID);
    if i == -1 then Err(UserNotFound)
    else
      var user := employees[i];
      if password.None? || Cell(user, 3).None? then Err(CompareFailure)
      else if !check(password.value, Cell(user, 3).value) then Err(WrongPassword)
      else Ok(SessionOf(user))
  }

  /** POST `/login`. */
  method Login(store: Store, employeeID: Option<string>, password: Option<string>, check: (string, string) -> bool)
    returns (res: Result<Session>)
    ensures EmployeeSheet !in store.sheets ==> res == Err(StoreFailure)
    ensures EmployeeSheet in store.sheets ==>
      res == Authenticate([store.sheets[EmployeeSheet].header] + store.sheets[EmployeeSheet].data, employeeID, password, check)
  {
    var fetched := store.GetAll(EmployeeSheet);
    if fetched.Err? {
      return Err(fetched.error);
    }
    res := Authenticate(fetched.value, employeeID, password, check);
  }

  /** After a registration under a fresh identifier, logging in with that
      identifier and the same password succeeds, provided the comparison
      accepts a password against its own hash; the session names the
      employee, the department and the delegation sheet registration added. */
  lemma RegisterThenLogin(employees: seq<Row>, id: string, name: string, mobile: string, password: string,
                          department: string, created: string, hash: string -> string, check: (string, string) -> bool)
    requires FindIndex(employees, id) == -1
    requires check(password, hash(password))
    ensures var row := EmployeeRow(id, name, mobile, hash(password), department, created);
      Authenticate(employees + [row], Some(id), Some(password), check)
        == Ok(Session(Claims(Some(id), Some(name), Some(department)), Some(id), Some(name), Delegations.SheetOf(name)))
      && Delegations.SheetOf(name) == PersonalSheets(name)[2].0
  {
    var row := EmployeeRow(id, name, mobile, hash(password), department, created);
    FreshAppend(employees, row, id);
  }

  /** A password the comparison rejects is refused with 401, and nothing
      about the employee is returned. */
  lemma WrongPasswordRefused(employees: seq<Row>, id: string, password: string, check: (string, string) -> bool)
    requires FindIndex(employees, id) != -1
    requires var user := employees[FindIndex(employees, id)];
      Cell(user, 3).Some? && !check(password, Cell(user, 3).value)
    ensures Authenticate(employees, Some(id), Some(password), check) == Err(WrongPassword)
  {
  }
}
