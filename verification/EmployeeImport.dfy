/**
 * The employee import of `backend/app/onboarding/service.py`: validating the rows of a file, and carrying it out.
 *
 * Parsing is done: e-mail addresses are normalized and texts stripped. Validation makes two passes, the second of
 * which may turn a valid row invalid and has to repair the counters; execution is all or nothing.
 */
module EmployeeImport {
  import opened Common

  /** A row of the file. `managerEmail` is empty where the file names no manager. */
  datatype Row = Row(
    email: string,
    code: string,
    passwordAccepted: bool,
    hash: Option<string>,
    departmentKnown: bool,
    statusKnown: bool,
    managerEmail: string)

  datatype RowError =
    | EmailRequired | EmailExists | CodeRequired | CodeExists | PasswordRejected
    | DepartmentNotFound | InvalidStatus | HashingFailed | ManagerNotFound(email: string)

  datatype RowResult = RowResult(number: nat, valid: bool, errors: seq<RowError>, row: Row)

  /** An employee with an account; `manager` is the address of the manager's account. */
  datatype Person = Person(code: string, manager: Option<string>)

  /** Accounts of the company by address, with the employee record where there is one, and all employee codes. */
  datatype Company = Company(accounts: map<string, Option<Person>>, codes: set<string>)

  // ----- what validation finds -----

  function EmailErrors(company: Company, row: Row): seq<RowError> {
    if row.email == "" then [EmailRequired] else if row.email in company.accounts then [EmailExists] else []
  }

  function CodeErrors(company: Company, row: Row): seq<RowError> {
    if row.code == "" then [CodeRequired] else if row.code in company.codes then [CodeExists] else []
  }

  function Complain(condition: bool, error: RowError): seq<RowError> {
    if condition then [error] else []
  }

  /** The errors of the first pass, in the order they are appended. */
  function FirstErrors(company: Company, row: Row): seq<RowError> {
    EmailErrors(company, row) + CodeErrors(company, row)
      + Complain(!row.passwordAccepted, PasswordRejected)
      + Complain(!row.departmentKnown, DepartmentNotFound)
      + Complain(!row.statusKnown, InvalidStatus)
      + Complain(row.passwordAccepted && row.hash.None?, HashingFailed)
  }

  function FirstResult(company: Company, i: nat, row: Row): RowResult {
    var errors := FirstErrors(company, row);
    RowResult(i + 1, errors == [], errors, row)
  }

  function FullResult(company: Company, rows: seq<Row>, i: nat, row: Row): RowResult {
    var errors := AllErrors(company, rows, row);
    RowResult(i + 1, errors == [], errors, row)
  }

  /** Which errors the first pass finds, said of the row. */
  lemma FirstErrorsAre(company: Company, row: Row, e: RowError)
    ensures e in FirstErrors(company, row) <==> match e
      case EmailRequired => row.email == ""
      case EmailExists => row.email != "" && row.email in company.accounts
      case CodeRequired => row.code == ""
      case CodeExists => row.code != "" && row.code in company.codes
      case PasswordRejected => !row.passwordAccepted
      case DepartmentNotFound => !row.departmentKnown
      case InvalidStatus => !row.statusKnown
      case HashingFailed => row.passwordAccepted && row.hash.None?
      case ManagerNotFound(_) => false
  {
    hide EmailErrors, CodeErrors, Complain;
    EmailErrorsAre(company, row, e);
    CodeErrorsAre(company, row, e);
    ComplaintIs(!row.passwordAccepted, PasswordRejected, e);
    ComplaintIs(!row.departmentKnown, DepartmentNotFound, e);
    ComplaintIs(!row.statusKnown, InvalidStatus, e);
    ComplaintIs(row.passwordAccepted && row.hash.None?, HashingFailed, e);
  }

  lemma EmailErrorsAre(company: Company, row: Row, e: RowError)
    ensures e in EmailErrors(company, row) <==>
      || (e == EmailRequired && row.email == "")
      || (e == EmailExists && row.email != "" && row.email in company.accounts)
  {
  }

  lemma CodeErrorsAre(company: Company, row: Row, e: RowError)
    ensures e in CodeErrors(company, row) <==>
      || (e == CodeRequired && row.code == "")
      || (e == CodeExists && row.code != "" && row.code in company.codes)
  {
  }

  lemma ComplaintIs(condition: bool, error: RowError, e: RowError)
    ensures e in Complain(condition, error) <==> condition && e == error
  {
  }

  /** And what the second pass adds: a manager who is neither in the company nor in the file. */
  lemma AllErrorsAre(company: Company, rows: seq<Row>, row: Row, e: RowError)
    ensures e in AllErrors(company, rows, row) <==>
      || e in FirstErrors(company, row)
      || (&& e == ManagerNotFound(row.managerEmail) && row.managerEmail != "" && row.managerEmail !in company.accounts
          && forall i | 0 <= i < |rows| :: rows[i].email != row.managerEmail)
  {
    hide FirstErrors;
    FirstErrorsAre(company, row, e);
    assert (exists r | r in rows :: r.email == row.managerEmail) <==> exists i | 0 <= i < |rows| :: rows[i].email == row.managerEmail by {
      if r :| r in rows && r.email == row.managerEmail {
        var i :| 0 <= i < |rows| && rows[i] == r;
      }
      if i :| 0 <= i < |rows| && rows[i].email == row.managerEmail {
        assert rows[i] in rows;
      }
    }
  }

  /** A row without errors has a password hash to create the account with. */
  lemma ErrorFreeRowHasHash(company: Company, rows: seq<Row>, row: Row)
    requires AllErrors(company, rows, row) == []
    ensures row.hash.Some? && row.email != "" && row.email !in company.accounts && row.code !in company.codes
  {
  }

  predicate ManagerKnown(company: Company, rows: seq<Row>, row: Row) {
    row.managerEmail == "" || row.managerEmail in company.accounts || exists r | r in rows :: r.email == row.managerEmail
  }

  function AllErrors(company: Company, rows: seq<Row>, row: Row): seq<RowError> {
    FirstErrors(company, row) + if ManagerKnown(company, rows, row) then [] else [ManagerNotFound(row.managerEmail)]
  }

  function CountValid(results: seq<RowResult>): (n: nat)
    ensures n <= |results|
  {
    if results == [] then 0
    else CountValid(results[..|results| - 1]) + if results[|results| - 1].errors == [] then 1 else 0
  }

  lemma {:induction false} CountAfterUpdate(results: seq<RowResult>, i: nat, r: RowResult)
    requires i < |results|
    ensures CountValid(results[i := r]) ==
      CountValid(results) - (if results[i].errors == [] then 1 else 0) + (if r.errors == [] then 1 else 0)
  {
    var n := |results| - 1;
    if i == n {
      assert results[i := r][..n] == results[..n];
    } else {
      CountAfterUpdate(results[..n], i, r);
      assert results[i := r][..n] == results[..n][i := r];
    }
  }

  /** All rows are valid exactly when every row is free of errors. */
  lemma {:induction false} AllCounted(results: seq<RowResult>)
    ensures CountValid(results) == |results| <==> forall i | 0 <= i < |results| :: results[i].errors == []
  {
    if results == [] {
    } else {
      var n := |results| - 1;
      AllCounted(results[..n]);
      assert forall i | 0 <= i < n :: results[..n][i] == results[i];
    }
  }

  /**
   * `_validate_employee_rows`: the results come in file order with numbers from 1, list every error, and the counters
   * agree with them although the second pass changes its mind about rows already counted.
   */
  method ValidateEmployeeRows(company: Company, rows: seq<Row>) returns (results: seq<RowResult>, valid: int, invalid: int)
    ensures |results| == |rows|
    ensures forall i | 0 <= i < |rows| :: results[i] == FullResult(company, rows, i, rows[i])
    ensures forall i | 0 <= i < |rows| ::
      && results[i].number == i + 1 && results[i].row == rows[i]
      && results[i].errors == AllErrors(company, rows, rows[i]) && (results[i].valid <==> results[i].errors == [])
    ensures valid == |ValidPlaces(results, |results|)| && valid + invalid == |rows|
    ensures valid == CountValid(results)
  {
    hide AllErrors, CountValid, FirstErrors, ManagerKnown, ValidPlaces;
    results, valid, invalid := FirstPass(company, rows);
    var managersNamed := exists r | r in rows :: r.managerEmail != "";
    if managersNamed {
      results, valid, invalid := SecondPass(company, rows, results, valid, invalid);
    } else {
      forall i | 0 <= i < |rows| ensures FullResult(company, rows, i, rows[i]) == FirstResult(company, i, rows[i]) {
        assert rows[i] in rows;
        NoManagerNoError(company, rows, rows[i]);
      }
    }
    CountValidIs(results, |results|);
    assert results[..|results|] == results;
  }

  /** The rows among the first `n` that have no error. */
  ghost function ValidPlaces(results: seq<RowResult>, n: nat): set<nat>
    requires n <= |results|
  {
    set i: nat | i < n && results[i].errors == []
  }

  lemma {:induction false} CountValidIs(results: seq<RowResult>, n: nat)
    requires n <= |results|
    ensures CountValid(results[..n]) == |ValidPlaces(results, n)|
  {
    hide ValidPlaces;
    if n == 0 {
      NoValidPlaces(results);
    } else {
      CountValidIs(results, n - 1);
      OneMoreValidPlace(results, n - 1);
      assert results[..n][..n - 1] == results[..n - 1];
    }
  }

  lemma NoValidPlaces(results: seq<RowResult>)
    ensures ValidPlaces(results, 0) == {}
  {
  }

  lemma OneMoreValidPlace(results: seq<RowResult>, n: nat)
    requires n < |results|
    ensures |ValidPlaces(results, n + 1)| == |ValidPlaces(results, n)| + if results[n].errors == [] then 1 else 0
  {
    var before := ValidPlaces(results, n);
    assert ValidPlaces(results, n + 1) == if results[n].errors == [] then before + {n} else before;
  }

  lemma NoManagerNoError(company: Company, rows: seq<Row>, row: Row)
    requires row.managerEmail == ""
    ensures AllErrors(company, rows, row) == FirstErrors(company, row)
  {
  }

  method FirstPass(company: Company, rows: seq<Row>) returns (results: seq<RowResult>, valid: int, invalid: int)
    ensures |results| == |rows|
    ensures forall i | 0 <= i < |rows| :: results[i] == FirstResult(company, i, rows[i])
    ensures valid == CountValid(results) && valid + invalid == |rows|
  {
    hide FirstErrors;
    results, valid, invalid := [], 0, 0;
    var index := 0;
    while index < |rows|
      invariant 0 <= index == |results| <= |rows|
      invariant forall i | 0 <= i < index :: results[i] == FirstResult(company, i, rows[i])
      invariant valid == CountValid(results) && valid + invalid == index
    {
      var errors := RowErrors(company, rows[index]);
      var result := RowResult(index + 1, errors == [], errors, rows[index]);
      assert (results + [result])[..index] == results;
      results := results + [result];
      if errors != [] {
        invalid := invalid + 1;
      } else {
        valid := valid + 1;
      }
      index := index + 1;
    }
  }

  method RowErrors(company: Company, row: Row) returns (errors: seq<RowError>)
    ensures errors == FirstErrors(company, row)
  {
    errors := [];
    if row.email == "" {
      errors := errors + [EmailRequired];
    } else if row.email in company.accounts {
      errors := errors + [EmailExists];
    }
    ghost var soFar := EmailErrors(company, row);
    assert errors == soFar;
    if row.code == "" {
      errors := errors + [CodeRequired];
    } else if row.code in company.codes {
      errors := errors + [CodeExists];
    }
    soFar := soFar + CodeErrors(company, row);
    assert errors == soFar;
    if !row.passwordAccepted {
      errors := errors + [PasswordRejected];
    }
    soFar := soFar + Complain(!row.passwordAccepted, PasswordRejected);
    assert errors == soFar;
    if !row.departmentKnown {
      errors := errors + [DepartmentNotFound];
    }
    soFar := soFar + Complain(!row.departmentKnown, DepartmentNotFound);
    assert errors == soFar;
    if !row.statusKnown {
      errors := errors + [InvalidStatus];
    }
    soFar := soFar + Complain(!row.statusKnown, InvalidStatus);
    assert errors == soFar;
    if row.passwordAccepted && row.hash.None? {
      errors := errors + [HashingFailed];
    }
  }

  method SecondPass(company: Company, rows: seq<Row>, first: seq<RowResult>, valid0: int, invalid0: int)
    returns (results: seq<RowResult>, valid: int, invalid: int)
    requires |first| == |rows|
    requires forall i | 0 <= i < |rows| :: first[i] == FirstResult(company, i, rows[i])
    requires valid0 == CountValid(first) && valid0 + invalid0 == |rows|
    ensures |results| == |rows|
    ensures forall i | 0 <= i < |rows| :: results[i] == FullResult(company, rows, i, rows[i])
    ensures valid == CountValid(results) && valid + invalid == |rows|
  {
    hide FirstErrors, CountValid;
    results, valid, invalid := first, valid0, invalid0;
    var knownEmails := (set r | r in rows :: r.email) + company.accounts.Keys;
    var index := 0;
    while index < |rows|
      invariant 0 <= index <= |rows| == |results|
      invariant forall i | 0 <= i < index :: results[i] == FullResult(company, rows, i, rows[i])
      invariant forall i | index <= i < |rows| :: results[i] == first[i]
      invariant valid == CountValid(results) && valid + invalid == |rows|
    {
      var r := results[index];
      ManagerKnownMeans(company, rows, r.row, knownEmails);
      var managerEmail := r.row.managerEmail;
      if managerEmail != "" && managerEmail !in knownEmails {
        var repaired := r.(errors := r.errors + [ManagerNotFound(managerEmail)]);
        if r.valid {
          repaired := repaired.(valid := false);
          valid := valid - 1;
          invalid := invalid + 1;
        }
        CountAfterUpdate(results, index, repaired);
        results := results[index := repaired];
      }
      index := index + 1;
    }
  }

  lemma ManagerKnownMeans(company: Company, rows: seq<Row>, row: Row, known: set<string>)
    requires known == (set r | r in rows :: r.email) + company.accounts.Keys
    ensures ManagerKnown(company, rows, row) <==> row.managerEmail == "" || row.managerEmail in known
  {
  }

  // ----- jobs -----

  datatype JobStatus = PENDING | READY | PROCESSING | COMPLETED | FAILED

  datatype Job = Job(checksum: string, status: JobStatus, total: nat, valid: int, invalid: int, processed: nat, report: seq<RowResult>)

  /** A job as `validate_import` may leave it: READY only if no row has an error. */
  ghost predicate JobOk(job: Job) {
    && job.total == |job.report|
    && (forall i | 0 <= i < |job.report| :: job.report[i].valid <==> job.report[i].errors == [])
    && (job.status == READY ==> forall i | 0 <= i < |job.report| :: job.report[i].valid && job.report[i].row.hash.Some?)
    && (job.status == COMPLETED ==> job.processed == job.total)
    && job.status != PENDING
  }

  predicate CompletedBefore(jobs: map<nat, Job>, checksum: string) {
    exists j | j in jobs :: jobs[j].checksum == checksum && jobs[j].status == COMPLETED
  }

  function ValidRows(report: seq<RowResult>): seq<Row> {
    if report == [] then []
    else
      var last := report[|report| - 1];
      ValidRows(report[..|report| - 1]) + if last.valid then [last.row] else []
  }

  lemma ReportIsOk(company: Company, rows: seq<Row>, job: Job)
    requires job.total == |rows| == |job.report| && job.status in {READY, FAILED}
    requires forall i | 0 <= i < |rows| :: job.report[i] == FullResult(company, rows, i, rows[i])
    requires job.status == READY ==> forall i | 0 <= i < |job.report| :: job.report[i].errors == []
    ensures JobOk(job)
  {
    hide AllErrors;
    forall i | 0 <= i < |rows| && job.report[i].errors == [] ensures rows[i].hash.Some? {
      ErrorFreeRowHasHash(company, rows, rows[i]);
    }
  }

  function RowsOf(report: seq<RowResult>): (rows: seq<Row>)
    ensures |rows| == |report| && forall i | 0 <= i < |report| :: rows[i] == report[i].row
  {
    seq(|report|, i requires 0 <= i < |report| => report[i].row)
  }

  lemma {:induction false} AllRowsValid(report: seq<RowResult>)
    requires forall i | 0 <= i < |report| :: report[i].valid
    ensures |ValidRows(report)| == |report|
    ensures forall i | 0 <= i < |report| :: ValidRows(report)[i] == report[i].row
  {
    if report == [] {
    } else {
      AllRowsValid(report[..|report| - 1]);
    }
  }

  /** The accounts and employees the first pass of the execution adds, or nothing where a unique constraint fails. */
  function Inserted(company: Company, rows: seq<Row>): Option<Company> {
    if rows == [] then Some(company)
    else match Inserted(company, rows[..|rows| - 1])
      case None => None
      case Some(c) =>
        var row := rows[|rows| - 1];
        if row.hash.None? then Some(c)
        else if row.email in c.accounts || row.code in c.codes then None
        else Some(WithAccount(c, row))
  }

  /** What a successful first pass leaves: one new account per row, with addresses and codes of their own. */
  ghost predicate Added(company: Company, rows: seq<Row>, c: Company) {
    && |c.accounts| == |company.accounts| + |rows|
    && OldKept(company, c)
    && RowsPresent(company, rows, c)
    && DistinctEmails(rows)
    && NothingElse(company, rows, c)
    && CodesTaken(company, rows, c)
    && CodesAre(company, rows, c)
  }

  ghost predicate OldKept(company: Company, c: Company) {
    forall e | e in company.accounts :: e in c.accounts && c.accounts[e] == company.accounts[e]
  }

  ghost predicate RowsPresent(company: Company, rows: seq<Row>, c: Company) {
    forall i | 0 <= i < |rows| ::
      && rows[i].email !in company.accounts && rows[i].email in c.accounts
      && c.accounts[rows[i].email] == Some(Person(rows[i].code, None))
  }

  ghost predicate NothingElse(company: Company, rows: seq<Row>, c: Company) {
    forall e | e in c.accounts :: e in company.accounts || exists i :: 0 <= i < |rows| && rows[i].email == e
  }

  /** The codes of the rows are new, pairwise different and recorded. */
  ghost predicate CodesTaken(company: Company, rows: seq<Row>, c: Company) {
    && company.codes <= c.codes
    && (forall i | 0 <= i < |rows| :: rows[i].code !in company.codes && rows[i].code in c.codes)
    && (forall i, j | 0 <= i < j < |rows| :: rows[i].code != rows[j].code)
  }

  /** The rows that become employees; one without a password hash is skipped. */
  function WithHash(rows: seq<Row>): seq<Row> {
    if rows == [] then []
    else WithHash(rows[..|rows| - 1]) + if rows[|rows| - 1].hash.Some? then [rows[|rows| - 1]] else []
  }

  lemma {:induction false} AllWithHash(rows: seq<Row>)
    requires forall i | 0 <= i < |rows| :: rows[i].hash.Some?
    ensures WithHash(rows) == rows
  {
    if rows == [] {
    } else {
      AllWithHash(rows[..|rows| - 1]);
    }
  }

  /** No code is taken but those that were and those of the rows. */
  ghost predicate CodesAre(company: Company, rows: seq<Row>, c: Company) {
    forall k | k in c.codes :: k in company.codes || exists i :: 0 <= i < |rows| && rows[i].code == k
  }

  lemma {:induction false} InsertedIsAdded(company: Company, rows: seq<Row>)
    requires Inserted(company, rows).Some?
    ensures Added(company, WithHash(rows), Inserted(company, rows).value)
  {
    hide Added;
    if rows == [] {
      AddedNothing(company);
    } else {
      var front, row := rows[..|rows| - 1], rows[|rows| - 1];
      InsertedIsAdded(company, front);
      if row.hash.Some? {
        AddedOneMore(company, WithHash(front), Inserted(company, front).value, row);
      } else {
        assert WithHash(rows) == WithHash(front);
      }
    }
  }

  /** The first pass goes through exactly if the addresses and codes are new, and different from each other. */
  lemma {:induction false} InsertedExactlyWhen(company: Company, rows: seq<Row>)
    ensures Inserted(company, rows).Some? <==> AllNew(company, WithHash(rows))
  {
    hide Added, AllNew;
    if rows == [] {
      NothingIsNew(company);
    } else {
      var front, row := rows[..|rows| - 1], rows[|rows| - 1];
      InsertedExactlyWhen(company, front);
      if row.hash.None? {
        assert WithHash(rows) == WithHash(front);
      } else if Inserted(company, front).Some? {
        InsertedIsAdded(company, front);
        OneMoreIsNew(company, WithHash(front), Inserted(company, front).value, row);
      } else {
        FewerAreNew(company, WithHash(front), row);
      }
    }
  }

  ghost predicate AllNew(company: Company, rows: seq<Row>) {
    && (forall i | 0 <= i < |rows| :: rows[i].email !in company.accounts && rows[i].code !in company.codes)
    && (forall i, j | 0 <= i < j < |rows| :: rows[i].email != rows[j].email && rows[i].code != rows[j].code)
  }

  lemma NothingIsNew(company: Company)
    ensures AllNew(company, [])
  {
  }

  lemma FewerAreNew(company: Company, rows: seq<Row>, row: Row)
    requires !AllNew(company, rows)
    ensures !AllNew(company, rows + [row])
  {
    var all := rows + [row];
    assert forall i | 0 <= i < |rows| :: all[i] == rows[i];
  }

  lemma OneMoreIsNew(company: Company, rows: seq<Row>, c: Company, row: Row)
    requires Added(company, rows, c) && AllNew(company, rows)
    ensures AllNew(company, rows + [row]) <==> row.email !in c.accounts && row.code !in c.codes
  {
    hide AllNew, OldKept, DistinctEmails;
    if row.email in c.accounts {
      TakenEmailIsNotNew(company, rows, c, row);
    } else if row.code in c.codes {
      TakenCodeIsNotNew(company, rows, c, row);
    } else {
      FreeRowIsNew(company, rows, c, row);
    }
  }

  lemma TakenEmailIsNotNew(company: Company, rows: seq<Row>, c: Company, row: Row)
    requires NothingElse(company, rows, c) && row.email in c.accounts
    ensures !AllNew(company, rows + [row])
  {
    var all := rows + [row];
    assert all[|rows|] == row;
    if row.email !in company.accounts {
      var i :| 0 <= i < |rows| && rows[i].email == row.email;
      assert all[i].email == all[|rows|].email;
    }
  }

  lemma TakenCodeIsNotNew(company: Company, rows: seq<Row>, c: Company, row: Row)
    requires CodesAre(company, rows, c) && row.code in c.codes
    ensures !AllNew(company, rows + [row])
  {
    var all := rows + [row];
    assert all[|rows|] == row;
    if row.code !in company.codes {
      var i :| 0 <= i < |rows| && rows[i].code == row.code;
      assert all[i].code == all[|rows|].code;
    }
  }

  lemma FreeRowIsNew(company: Company, rows: seq<Row>, c: Company, row: Row)
    requires AllNew(company, rows) && OldKept(company, c) && RowsPresent(company, rows, c) && CodesTaken(company, rows, c)
    requires row.email !in c.accounts && row.code !in c.codes
    ensures AllNew(company, rows + [row])
  {
    var all := rows + [row];
    assert forall i | 0 <= i < |rows| :: all[i] == rows[i] && rows[i].email in c.accounts && rows[i].code in c.codes;
  }

  lemma AddedNothing(company: Company)
    ensures Added(company, [], company)
  {
  }

  /** The company with one more account and code. */
  function WithAccount(c: Company, row: Row): Company {
    Company(c.accounts[row.email := Some(Person(row.code, None))], c.codes + {row.code})
  }

  lemma AddedOneMore(company: Company, rows: seq<Row>, c: Company, row: Row)
    requires Added(company, rows, c) && row.email !in c.accounts && row.code !in c.codes
    ensures Added(company, rows + [row], WithAccount(c, row))
  {
    hide OldKept, RowsPresent, NothingElse, CodesTaken, CodesAre, DistinctEmails;
    CodesAreOneMore(company, rows, c, row);
    assert |WithAccount(c, row).accounts| == |c.accounts| + 1;
    PresentOneMore(company, rows, c, row);
    DistinctOneMore(company, rows, c, row);
    NothingElseOneMore(company, rows, c, row);
    CodesOneMore(company, rows, c, row);
  }

  lemma PresentOneMore(company: Company, rows: seq<Row>, c: Company, row: Row)
    requires OldKept(company, c) && RowsPresent(company, rows, c) && row.email !in c.accounts
    ensures OldKept(company, WithAccount(c, row)) && RowsPresent(company, rows + [row], WithAccount(c, row))
  {
  }

  lemma DistinctOneMore(company: Company, rows: seq<Row>, c: Company, row: Row)
    requires RowsPresent(company, rows, c) && DistinctEmails(rows) && row.email !in c.accounts
    ensures DistinctEmails(rows + [row])
  {
  }

  lemma NothingElseOneMore(company: Company, rows: seq<Row>, c: Company, row: Row)
    requires NothingElse(company, rows, c)
    ensures NothingElse(company, rows + [row], WithAccount(c, row))
  {
    var all := rows + [row];
    forall e | e in WithAccount(c, row).accounts && e !in company.accounts
      ensures exists i :: 0 <= i < |all| && all[i].email == e
    {
      if e == row.email {
        assert all[|rows|].email == e;
      } else {
        var i :| 0 <= i < |rows| && rows[i].email == e;
        assert all[i].email == e;
      }
    }
  }

  lemma CodesAreOneMore(company: Company, rows: seq<Row>, c: Company, row: Row)
    requires CodesAre(company, rows, c)
    ensures CodesAre(company, rows + [row], WithAccount(c, row))
  {
    var all := rows + [row];
    forall k | k in WithAccount(c, row).codes && k !in company.codes ensures exists i :: 0 <= i < |all| && all[i].code == k {
      if k == row.code {
        assert all[|rows|].code == k;
      } else {
        var i :| 0 <= i < |rows| && rows[i].code == k;
        assert all[i].code == k;
      }
    }
  }

  lemma CodesOneMore(company: Company, rows: seq<Row>, c: Company, row: Row)
    requires CodesTaken(company, rows, c) && row.code !in c.codes
    ensures CodesTaken(company, rows + [row], WithAccount(c, row))
  {
  }

  /** The manager a row names, where that account has an employee and is not the row's own. */
  function ManagerOf(c: Company, row: Row): Option<string> {
    if row.managerEmail != "" && row.managerEmail != row.email
      && row.managerEmail in c.accounts && c.accounts[row.managerEmail].Some?
    then Some(row.managerEmail) else None
  }

  /** The manager the second pass leaves with an address: a later row of the same address wins. */
  function ManagerAt(c: Company, rows: seq<Row>, email: string): Option<string> {
    if rows == [] then None
    else
      var last := rows[|rows| - 1];
      if last.email == email && ManagerOf(c, last).Some? then ManagerOf(c, last)
      else ManagerAt(c, rows[..|rows| - 1], email)
  }

  /** With different addresses that is the manager of the row itself. */
  lemma {:induction false} ManagerAtIsOwn(c: Company, rows: seq<Row>, i: nat)
    requires DistinctEmails(rows) && i < |rows|
    ensures ManagerAt(c, rows, rows[i].email) == ManagerOf(c, rows[i])
  {
    hide ManagerOf;
    var n := |rows| - 1;
    if i == n {
      NobodyNamed(c, rows[..n], rows[i].email);
    } else {
      ManagerAtIsOwn(c, rows[..n], i);
    }
  }

  lemma {:induction false} NobodyNamed(c: Company, rows: seq<Row>, email: string)
    requires forall i | 0 <= i < |rows| :: rows[i].email != email
    ensures ManagerAt(c, rows, email) == None
  {
    if rows == [] {
    } else {
      NobodyNamed(c, rows[..|rows| - 1], email);
    }
  }

  class OnboardingImportService {
    var company: Company
    var jobs: map<nat, Job>
    /** Nothing goes wrong but what the rows themselves bring about. */
    const calm: bool

    ghost predicate Valid()
      reads this
    {
      forall j | j in jobs :: JobOk(jobs[j])
    }

    constructor (company: Company, calm: bool)
      ensures Valid() && this.company == company && jobs == map[] && this.calm == calm
    {
      this.calm := calm;
      this.company := company;
      jobs := map[];
    }

    /**
     * `validate_import` for employees: a file whose import was completed is refused; otherwise there is a new job, which
     * is READY exactly when no row has an error.
     */
    method ValidateImport(id: nat, checksum: string, rows: seq<Row>) returns (accepted: bool)
      requires Valid() && id !in jobs
      modifies this
      ensures Valid() && company == old(company)
      ensures accepted <==> !CompletedBefore(old(jobs), checksum)
      ensures !accepted ==> jobs == old(jobs)
      ensures accepted ==>
        && id in jobs && jobs[id].checksum == checksum && jobs[id].total == |rows| && jobs == old(jobs)[id := jobs[id]]
        && jobs[id].valid + jobs[id].invalid == |rows|
        && (jobs[id].status == READY <==> forall i | 0 <= i < |rows| :: AllErrors(company, rows, rows[i]) == [])
        && RowsOf(jobs[id].report) == rows
    {
      hide AllErrors, CountValid;
      if CompletedBefore(jobs, checksum) {
        return false;
      }
      accepted := true;
      var results, valid, invalid := ValidateEmployeeRows(company, rows);
      AllCounted(results);
      var status := if invalid == 0 then READY else FAILED;
      var job := Job(checksum, status, |rows|, valid, invalid, 0, results);
      ReportIsOk(company, rows, job);
      jobs := jobs[id := job];
    }

    /**
     * `confirm_import`: a READY job is carried out or undone. On success every row of the file became one employee; on
     * failure the company is what it was, and if not even the failure can be recorded the job stays PROCESSING, which no
     * later call accepts.
     */
    method ConfirmImport(id: nat) returns (accepted: bool)
      requires Valid()
      modifies this
      ensures Valid()
      ensures accepted <==> id in old(jobs) && old(jobs)[id].status == READY
      ensures !accepted ==> jobs == old(jobs) && company == old(company)
      ensures accepted ==> id in jobs && jobs[id].status in {COMPLETED, FAILED, PROCESSING}
      ensures accepted ==>
        jobs == old(jobs)[id := old(jobs)[id].(status := jobs[id].status, processed := jobs[id].processed)]
      ensures accepted && jobs[id].status != COMPLETED ==> company == old(company)
      ensures accepted && jobs[id].status == COMPLETED ==>
        && jobs[id].processed == jobs[id].total == |jobs[id].report|
        && AllImported(old(company), RowsOf(jobs[id].report), company)
      ensures accepted && calm ==>
        jobs[id].status == if AllNew(old(company), RowsOf(jobs[id].report)) then COMPLETED else FAILED
    {
      hide Imported, AllImported, Inserted, ValidRows, WithHash, AllNew;
      if id !in jobs || jobs[id].status !in {READY, PENDING} {
        return false;
      }
      accepted := true;
      var before := company;
      var job := jobs[id];
      jobs := jobs[id := job.(status := PROCESSING)];
      AllRowsValid(job.report);
      var rows := ValidRows(job.report);
      assert rows == RowsOf(job.report);
      AllWithHash(rows);
      InsertedExactlyWhen(company, rows);
      var interrupted: bool := *;
      interrupted := interrupted && !calm;
      var done, processed := ExecuteEmployeeImport(rows);
      if !done || interrupted {
        company := before;
        var marked: bool := *;
        if marked || calm {
          jobs := jobs[id := job.(status := FAILED)];
        }
        return;
      }
      ImportedIsAllImported(before, rows, company);
      jobs := jobs[id := job.(status := COMPLETED, processed := processed)];
    }

    /** `_execute_employee_import` */
    method ExecuteEmployeeImport(rows: seq<Row>) returns (done: bool, processed: nat)
      modifies this`company
      ensures done <==> Inserted(old(company), rows).Some?
      ensures done ==> processed == |WithHash(rows)| && Imported(old(company), rows, company)
    {
      hide Inserted;
      var created;
      done, processed, created := InsertRows(rows);
      if done {
        InsertedIsAdded(old(company), rows);
        ResolveManagers(old(company), rows, created);
      }
    }

    /** The first pass: one account and one employee per row that has a password hash. */
    method InsertRows(rows: seq<Row>) returns (done: bool, processed: nat, created: set<string>)
      modifies this`company
      ensures done <==> Inserted(old(company), rows).Some?
      ensures done ==> company == Inserted(old(company), rows).value
      ensures done ==> processed == |WithHash(rows)| && created == Emails(WithHash(rows))
    {
      processed, created := 0, {};
      var i := 0;
      while i < |rows|
        invariant 0 <= i <= |rows|
        invariant processed == |WithHash(rows[..i])| && created == Emails(WithHash(rows[..i]))
        invariant Inserted(old(company), rows[..i]) == Some(company)
      {
        assert rows[..i + 1][..i] == rows[..i];
        var row := rows[i];
        if row.hash.Some? {
          if row.email in company.accounts || row.code in company.codes {
            InsertionStaysFailed(old(company), rows, i + 1);
            return false, processed, created;
          }
          company := WithAccount(company, row);
          EmailsOneMore(WithHash(rows[..i]), row);
          created := created + {row.email};
          processed := processed + 1;
        }
        i := i + 1;
      }
      assert rows[..|rows|] == rows;
      done := true;
    }

    /** The second pass: managers, now that every account of the file exists. */
    method ResolveManagers(ghost before: Company, rows: seq<Row>, created: set<string>)
      requires Added(before, WithHash(rows), company) && created == Emails(WithHash(rows))
      modifies this`company
      ensures Imported(before, rows, company)
    {
      hide Added, Resolved, ManagerOf, WithHash;
      ghost var start := company;
      ResolvedNothing(before, WithHash(rows), start, created);
      var i := 0;
      while i < |rows|
        invariant 0 <= i <= |rows|
        invariant Resolved(start, company, created, rows[..i])
      {
        var row := rows[i];
        assert rows[..i + 1] == rows[..i] + [row];
        ResolveOne(start, company, created, rows[..i], row);
        ManagerOfIs(company, row);
        if row.managerEmail != "" && row.email in created {
          if row.managerEmail in company.accounts && company.accounts[row.managerEmail].Some? && row.managerEmail != row.email {
            company := WithManager(company, row);
          }
        }
        i := i + 1;
      }
      assert rows[..|rows|] == rows;
      ResolvedAll(before, rows, start, company, created);
    }
  }

  function Emails(rows: seq<Row>): set<string> {
    set r | r in rows :: r.email
  }

  lemma EmailsOneMore(rows: seq<Row>, row: Row)
    ensures Emails(rows + [row]) == Emails(rows) + {row.email}
  {
  }

  lemma ManagerOfIs(c: Company, row: Row)
    ensures ManagerOf(c, row).Some? <==>
      row.managerEmail != "" && row.managerEmail in c.accounts && c.accounts[row.managerEmail].Some? && row.managerEmail != row.email
    ensures ManagerOf(c, row) in {None, Some(row.managerEmail)}
  {
  }

  /** The employee behind an address once the second pass has dealt with `rows`. */
  function AfterRows(start: Company, created: set<string>, rows: seq<Row>, email: string): Option<Person>
    requires email in start.accounts
  {
    if email in created && start.accounts[email].Some?
    then Some(start.accounts[email].value.(manager := ManagerAt(start, rows, email)))
    else start.accounts[email]
  }

  ghost predicate Resolved(start: Company, now: Company, created: set<string>, rows: seq<Row>) {
    && SameAccounts(start, now)
    && (forall e | e in created :: e in start.accounts && start.accounts[e].Some?)
    && forall e | e in start.accounts :: now.accounts[e] == AfterRows(start, created, rows, e)
  }

  /** The company after the second pass has given the employee of a row a manager. */
  function WithManager(now: Company, row: Row): Company
    requires row.email in now.accounts && now.accounts[row.email].Some?
  {
    now.(accounts := now.accounts[row.email := Some(now.accounts[row.email].value.(manager := Some(row.managerEmail)))])
  }

  lemma ResolvedNothing(before: Company, made: seq<Row>, start: Company, created: set<string>)
    requires Added(before, made, start) && created == Emails(made)
    ensures Resolved(start, start, created, [])
  {
    hide NothingElse, CodesTaken, OldKept, DistinctEmails;
    forall e | e in created ensures e in start.accounts && start.accounts[e].Some? && start.accounts[e].value.manager.None? {
      var i :| 0 <= i < |made| && made[i].email == e;
    }
  }

  lemma ResolveOne(start: Company, now: Company, created: set<string>, rows: seq<Row>, row: Row)
    requires Resolved(start, now, created, rows)
    ensures row.email in created ==> row.email in now.accounts && now.accounts[row.email].Some?
    ensures if row.email in created && ManagerOf(now, row).Some?
      then Resolved(start, WithManager(now, row), created, rows + [row]) else Resolved(start, now, created, rows + [row])
  {
    hide ManagerAt;
    SameManagers(start, now, row);
    ManagerAtOneMore(start, rows, row);
  }

  lemma ManagerAtOneMore(c: Company, rows: seq<Row>, row: Row)
    ensures forall e :: ManagerAt(c, rows + [row], e) ==
                        if row.email == e && ManagerOf(c, row).Some? then ManagerOf(c, row) else ManagerAt(c, rows, e)
  {
    assert (rows + [row])[..|rows|] == rows;
  }

  lemma ResolvedAll(before: Company, rows: seq<Row>, start: Company, now: Company, created: set<string>)
    requires Added(before, WithHash(rows), start) && created == Emails(WithHash(rows))
    requires Resolved(start, now, created, rows)
    ensures Imported(before, rows, now)
  {
    hide WithHash, ManagerAt, NothingElse, DistinctEmails;
    var made := WithHash(rows);
    SameNumber(start.accounts, now.accounts);
    forall i | 0 <= i < |made|
      ensures made[i].email !in before.accounts && made[i].email in now.accounts
      ensures now.accounts[made[i].email] == Some(Person(made[i].code, ManagerAt(now, rows, made[i].email)))
    {
      assert made[i].email in created;
      SameManagersAt(start, now, rows, made[i].email);
    }
    forall e | e in before.accounts ensures e in now.accounts && now.accounts[e] == before.accounts[e] {
      assert e !in created;
    }
  }

  ghost predicate DistinctEmails(rows: seq<Row>) {
    forall i, j | 0 <= i < j < |rows| :: rows[i].email != rows[j].email
  }

  /** The same accounts, with an employee behind the same of them. */
  ghost predicate SameAccounts(a: Company, b: Company) {
    && a.accounts.Keys == b.accounts.Keys
    && a.codes == b.codes
    && forall e | e in a.accounts :: a.accounts[e].Some? <==> b.accounts[e].Some?
  }

  lemma SameManagers(a: Company, b: Company, row: Row)
    requires SameAccounts(a, b)
    ensures ManagerOf(a, row) == ManagerOf(b, row)
  {
  }

  lemma {:induction false} SameManagersAt(a: Company, b: Company, rows: seq<Row>, email: string)
    requires SameAccounts(a, b)
    ensures ManagerAt(a, rows, email) == ManagerAt(b, rows, email)
  {
    hide ManagerOf, SameAccounts;
    if rows == [] {
    } else {
      SameManagers(a, b, rows[|rows| - 1]);
      SameManagersAt(a, b, rows[..|rows| - 1], email);
    }
  }

  lemma SameNumber(a: map<string, Option<Person>>, b: map<string, Option<Person>>)
    requires a.Keys == b.Keys
    ensures |a| == |b|
  {
    assert |a| == |a.Keys| && |b| == |b.Keys|;
  }

  /** What the file says became of the rows with a password hash; whoever was there before is untouched. */
  ghost predicate Imported(before: Company, rows: seq<Row>, after: Company) {
    var made := WithHash(rows);
    && |after.accounts| == |before.accounts| + |made|
    && OldKept(before, after)
    && CodesTaken(before, made, after) && CodesAre(before, made, after)
    && (forall i | 0 <= i < |made| ::
          && made[i].email !in before.accounts && made[i].email in after.accounts
          && after.accounts[made[i].email] == Some(Person(made[i].code, ManagerAt(after, rows, made[i].email))))
    && DistinctEmails(made)
  }

  /** Every row became one employee below the manager it names; whoever was there before is untouched. */
  ghost predicate AllImported(before: Company, rows: seq<Row>, after: Company) {
    && |after.accounts| == |before.accounts| + |rows|
    && OldKept(before, after)
    && CodesTaken(before, rows, after) && CodesAre(before, rows, after)
    && (forall i | 0 <= i < |rows| ::
          && rows[i].email !in before.accounts && rows[i].email in after.accounts
          && after.accounts[rows[i].email] == Some(Person(rows[i].code, ManagerOf(after, rows[i]))))
    && DistinctEmails(rows)
  }

  /** A READY job has a hash in every row. */
  lemma ImportedIsAllImported(before: Company, rows: seq<Row>, after: Company)
    requires Imported(before, rows, after) && forall i | 0 <= i < |rows| :: rows[i].hash.Some?
    ensures WithHash(rows) == rows && AllImported(before, rows, after)
  {
    hide ManagerOf, WithHash, ManagerAt, OldKept, CodesTaken;
    AllWithHash(rows);
    forall i | 0 <= i < |rows| ensures ManagerAt(after, rows, rows[i].email) == ManagerOf(after, rows[i]) {
      ManagerAtIsOwn(after, rows, i);
    }
  }

  lemma {:induction false} InsertionStaysFailed(company: Company, rows: seq<Row>, n: nat)
    requires n <= |rows| && Inserted(company, rows[..n]).None?
    ensures Inserted(company, rows).None?
    decreases |rows|
  {
    if n == |rows| {
      assert rows[..n] == rows;
    } else {
      var front := rows[..|rows| - 1];
      assert front[..n] == rows[..n];
      InsertionStaysFailed(company, front, n);
    }
  }
}
