/**
 * The tables behind `AdminEmployeeService` and `AdminAssetService` (`backend/app/admin/service.py`), and what one call
 * of each operation makes of them. A call that raises leaves both tables as they were.
 */
module Directory {
  import opened Common

  type CompanyId = nat

  type EmployeeId = nat

  type AssetId = nat

  datatype EmploymentStatus = ACTIVE | INACTIVE | ON_LEAVE | TERMINATED

  datatype AssetStatus = AVAILABLE | ASSIGNED | RESERVED | MAINTENANCE | RETIRED | LOST

  datatype Account = Account(active: bool, leadsDepartment: bool)

  datatype Employee = Employee(
    company: CompanyId,
    account: Option<Account>,
    status: EmploymentStatus,
    manager: Option<EmployeeId>)

  datatype Asset = Asset(company: CompanyId, status: AssetStatus, assignee: Option<EmployeeId>, version: nat)

  type Staff = map<EmployeeId, Employee>

  datatype State = State(staff: Staff, assets: map<AssetId, Asset>)

  datatype AdminError = NotFound | Invalid | Conflict | IntegrityFailure | OptimisticLock

  // ----- who manages whom -----

  /** Rows a reader sees: all of them, or those of one company. */
  predicate Visible(staff: Staff, scope: Option<CompanyId>, x: EmployeeId) {
    x in staff && (scope.Some? ==> staff[x].company == scope.value)
  }

  /** The manager of `x` as far as the reader can see. */
  function Boss(staff: Staff, scope: Option<CompanyId>, x: EmployeeId): Option<EmployeeId> {
    if Visible(staff, scope, x) && staff[x].manager.Some? && Visible(staff, scope, staff[x].manager.value)
    then staff[x].manager else None
  }

  /** The `n`-th manager above `x`. */
  function Above(staff: Staff, scope: Option<CompanyId>, x: EmployeeId, n: nat): Option<EmployeeId>
    decreases n
  {
    if n == 0 then Some(x)
    else match Boss(staff, scope, x)
      case None => None
      case Some(y) => Above(staff, scope, y, n - 1)
  }

  ghost predicate Ends(staff: Staff, scope: Option<CompanyId>, x: EmployeeId) {
    exists n: nat :: Above(staff, scope, x, n) == None
  }

  ghost predicate IsAbove(staff: Staff, scope: Option<CompanyId>, boss: EmployeeId, x: EmployeeId) {
    exists n: nat :: Above(staff, scope, x, n) == Some(boss)
  }

  /** No chain of managers runs in circles. */
  ghost predicate Acyclic(staff: Staff) {
    forall x | x in staff :: Ends(staff, None, x)
  }

  // ----- employees -----

  datatype EmployeeUpdate = EmployeeUpdate(manager: Option<EmployeeId>, status: Option<EmploymentStatus>, emailTaken: bool, email: bool)

  /**
   * `AdminEmployeeService.create`. `valid` stands for the checks of code, email, department and password; the database
   * wants the manager to exist, in whichever company.
   */
  function CreateEmployee(s: State, company: CompanyId, id: EmployeeId, manager: Option<EmployeeId>,
                          status: EmploymentStatus, valid: bool): Result<State, AdminError>
  {
    if !valid then Err(Invalid)
    else if manager.Some? && manager.value !in s.staff then Err(IntegrityFailure)
    else Ok(s.(staff := s.staff[id := Employee(company, Some(Account(true, false)), status, manager)]))
  }

  predicate AvailableManager(staff: Staff, company: CompanyId, m: EmployeeId) {
    Visible(staff, Some(company), m) && staff[m].account.Some? && staff[m].status == ACTIVE
  }

  /** The walk finds its way out: the managers above `m` come to an end and `id` is not among them. */
  ghost predicate ClearWay(staff: Staff, company: CompanyId, m: EmployeeId, id: EmployeeId) {
    Ends(staff, Some(company), m) && !IsAbove(staff, Some(company), id, m)
  }

  function Updated(row: Employee, update: EmployeeUpdate): Employee {
    row.(manager := if update.manager.Some? then update.manager else row.manager,
         status := if update.status.Some? then update.status.value else row.status)
  }

  /** `AdminEmployeeService.update` */
  ghost function UpdateEmployee(s: State, company: CompanyId, id: EmployeeId, update: EmployeeUpdate): Result<State, AdminError> {
    if !Visible(s.staff, Some(company), id) then Err(NotFound)
    else if update.status == Some(TERMINATED) then Err(Invalid)
    else if update.email && update.emailTaken then Err(Conflict)
    else if update.email && s.staff[id].account.None? then Err(Invalid)
    else if update.manager.Some? &&
      (!AvailableManager(s.staff, company, update.manager.value) || !ClearWay(s.staff, company, update.manager.value, id))
    then Err(Invalid)
    else Ok(s.(staff := s.staff[id := Updated(s.staff[id], update)]))
  }

  predicate HoldsAssets(s: State, company: CompanyId, id: EmployeeId) {
    exists a | a in s.assets ::
      s.assets[a].company == company && s.assets[a].assignee == Some(id) && s.assets[a].status == ASSIGNED
  }

  /** The row of an employee who has left, and whose account is closed. */
  function Deactivated(row: Employee): Employee {
    row.(status := TERMINATED,
         account := if row.account.Some? then Some(row.account.value.(active := false)) else None)
  }

  /** `AdminEmployeeService.soft_delete` */
  function SoftDeleteEmployee(s: State, company: CompanyId, id: EmployeeId, pendingActions: bool): Result<State, AdminError> {
    if !Visible(s.staff, Some(company), id) then Err(NotFound)
    else if s.staff[id].account.Some? && s.staff[id].account.value.leadsDepartment then Err(Conflict)
    else if HoldsAssets(s, company, id) then Err(Conflict)
    else if s.staff[id].account.Some? && pendingActions then Err(Conflict)
    else Ok(s.(staff := s.staff[id := Deactivated(s.staff[id])]))
  }

  // ----- assets -----

  datatype AssetUpdate = AssetUpdate(assignee: Field<EmployeeId>, status: Field<AssetStatus>, others: bool, version: nat)

  /** `_validate_assignment`: the status field as rewritten, or the error. */
  function ValidateAssignment(staff: Staff, company: CompanyId, assignee: Field<EmployeeId>, status: Field<AssetStatus>)
    : Result<Field<AssetStatus>, AdminError>
  {
    if assignee.Get().Some? then
      var e := assignee.Get().value;
      if !Visible(staff, Some(company), e) || staff[e].status != ACTIVE then Err(Invalid)
      else if status.Get() !in {None, Some(ASSIGNED)} then Err(Invalid)
      else Ok(SetTo(Some(ASSIGNED)))
    else if status.Get() == Some(ASSIGNED) then Err(Invalid)
    else if assignee.SetTo? && status.Get() == None then Ok(SetTo(Some(AVAILABLE)))
    else Ok(status)
  }

  /** `AdminAssetService.create`; the model column defaults to AVAILABLE. */
  function CreateAsset(s: State, company: CompanyId, id: AssetId, assignee: Field<EmployeeId>, status: Option<AssetStatus>)
    : Result<State, AdminError>
  {
    match ValidateAssignment(s.staff, company, assignee, if status.None? then Unset else SetTo(status))
    case Err(e) => Err(e)
    case Ok(field) =>
      var initial := if field.Get().Some? then field.Get().value else AVAILABLE;
      Ok(s.(assets := s.assets[id := Asset(company, initial, assignee.Get(), 1)]))
  }

  predicate VisibleAsset(s: State, company: CompanyId, id: AssetId) {
    id in s.assets && s.assets[id].company == company
  }

  /** `AdminAssetService.update` and the versioned update of its repository; the status column is not nullable. */
  function UpdateAsset(s: State, company: CompanyId, id: AssetId, update: AssetUpdate): Result<State, AdminError> {
    if !VisibleAsset(s, company, id) then Err(NotFound)
    else
      var asset := s.assets[id];
      if asset.status == RETIRED then Err(Invalid) else
      match ValidateAssignment(s.staff, company, update.assignee, update.status)
      case Err(e) => Err(e)
      case Ok(field) =>
        if field.Get() == Some(RETIRED) && (asset.assignee.Some? || update.assignee.Get().Some?) then Err(Conflict)
        else if update.assignee.Unset? && field.Unset? && !update.others then Ok(s)
        else if asset.version != update.version then Err(OptimisticLock)
        else if field == SetTo(None) then Err(IntegrityFailure)
        else Ok(s.(assets := s.assets[id := Asset(
          company,
          if field.SetTo? then field.value.value else asset.status,
          if update.assignee.SetTo? then update.assignee.value else asset.assignee,
          update.version + 1)]))
  }

  /** `AdminAssetService.soft_delete` */
  function SoftDeleteAsset(s: State, company: CompanyId, id: AssetId): Result<State, AdminError> {
    if !VisibleAsset(s, company, id) then Err(NotFound)
    else if s.assets[id].assignee.Some? then Err(Conflict)
    else Ok(s.(assets := s.assets[id := s.assets[id].(status := RETIRED)]))
  }

  // ----- runs -----

  datatype Op =
    | OpCreateEmployee(company: CompanyId, employee: EmployeeId, manager: Option<EmployeeId>, employment: EmploymentStatus, valid: bool)
    | OpUpdateEmployee(company: CompanyId, employee: EmployeeId, update: EmployeeUpdate)
    | OpSoftDeleteEmployee(company: CompanyId, employee: EmployeeId, pendingActions: bool)
    | OpCreateAsset(company: CompanyId, asset: AssetId, assignee: Field<EmployeeId>, status: Option<AssetStatus>)
    | OpUpdateAsset(company: CompanyId, asset: AssetId, change: AssetUpdate)
    | OpSoftDeleteAsset(company: CompanyId, asset: AssetId)

  /** New rows get new ids. */
  predicate Enabled(s: State, op: Op) {
    match op
    case OpCreateEmployee(_, id, _, _, _) => id !in s.staff
    case OpCreateAsset(_, id, _, _) => id !in s.assets
    case _ => true
  }

  ghost function Apply(s: State, op: Op): Result<State, AdminError> {
    match op
    case OpCreateEmployee(c, id, manager, status, valid) => CreateEmployee(s, c, id, manager, status, valid)
    case OpUpdateEmployee(c, id, update) => UpdateEmployee(s, c, id, update)
    case OpSoftDeleteEmployee(c, id, pending) => SoftDeleteEmployee(s, c, id, pending)
    case OpCreateAsset(c, id, assignee, status) => CreateAsset(s, c, id, assignee, status)
    case OpUpdateAsset(c, id, update) => UpdateAsset(s, c, id, update)
    case OpSoftDeleteAsset(c, id) => SoftDeleteAsset(s, c, id)
  }

  ghost function After(s: State, op: Op): State {
    match Apply(s, op)
    case Ok(s') => s'
    case Err(_) => s
  }

  const EMPTY := State(map[], map[])

  /** The tables after the first `n` operations of a serial run. */
  ghost function StateAt(ops: seq<Op>, n: nat): State
    requires n <= |ops|
  {
    if n == 0 then EMPTY else After(StateAt(ops, n - 1), ops[n - 1])
  }

  ghost predicate IsRun(ops: seq<Op>) {
    forall i | 0 <= i < |ops| :: Enabled(StateAt(ops, i), ops[i])
  }
}
