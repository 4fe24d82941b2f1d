/** The methods of `AdminEmployeeService` and `AdminAssetService` over the tables they share. */
module AdminServices {
  import opened Common
  import opened Directory
  import ReportingLines

  class AdminService {
    const company: CompanyId
    var tables: State

    constructor (company: CompanyId, tables: State)
      ensures this.company == company && this.tables == tables
    {
      this.company := company;
      this.tables := tables;
    }

    /** `repo.get` */
    function Get(id: EmployeeId): (r: Option<Employee>)
      reads this
      ensures r.Some? <==> Visible(tables.staff, Some(company), id)
    {
      if id in tables.staff && tables.staff[id].company == company then Some(tables.staff[id]) else None
    }

    /** `AdminEmployeeService.create` */
    method CreateEmployee(id: EmployeeId, manager: Option<EmployeeId>, status: EmploymentStatus, valid: bool)
      returns (r: Result<Employee, AdminError>)
      requires id !in tables.staff
      modifies this`tables
      ensures r.Ok? <==> Directory.CreateEmployee(old(tables), company, id, manager, status, valid).Ok?
      ensures r.Err? ==> Err(r.error) == Directory.CreateEmployee(old(tables), company, id, manager, status, valid)
      ensures tables == After(old(tables), OpCreateEmployee(company, id, manager, status, valid))
      ensures r.Ok? ==> id in tables.staff && tables.staff[id] == r.value
    {
      if !valid {
        return Err(Invalid);
      }
      if manager.Some? && manager.value !in tables.staff {
        return Err(IntegrityFailure);
      }
      var row := Employee(company, Some(Account(true, false)), status, manager);
      tables := tables.(staff := tables.staff[id := row]);
      return Ok(row);
    }

    /**
     * The walk of `AdminEmployeeService.update` from the chosen manager upwards. It ends on any table, circular or not:
     * every round visits one more row.
     */
    method WalkUp(id: EmployeeId, manager: EmployeeId) returns (clear: bool)
      requires Visible(tables.staff, Some(company), manager) && manager != id
      ensures clear <==> ClearWay(tables.staff, company, manager, id)
    {
      ghost var staff, scope := tables.staff, Some(company);
      var ancestor := manager;
      var visited: set<EmployeeId> := {id};
      ghost var steps: nat := 0;
      while tables.staff[ancestor].manager.Some?
        invariant Visible(staff, scope, ancestor) && ancestor !in visited
        invariant Above(staff, scope, manager, steps) == Some(ancestor)
        invariant forall k: nat | k <= steps :: Above(staff, scope, manager, k) != Some(id)
        invariant forall v | v in visited :: v == id || exists k: nat :: k < steps && Above(staff, scope, manager, k) == Some(v)
        decreases staff.Keys - visited
      {
        visited := visited + {ancestor};
        var above := tables.staff[ancestor].manager.value;
        var nextManager := Get(above);
        ReportingLines.AboveSplit(staff, scope, manager, steps, 1);
        assert Above(staff, scope, ancestor, 1) == Boss(staff, scope, ancestor);
        if nextManager.None? {
          break;
        }
        assert Above(staff, scope, manager, steps + 1) == Some(above);
        if above in visited {
          NoWayOut(staff, company, manager, id, steps + 1);
          return false;
        }
        ancestor := above;
        steps := steps + 1;
      }
      ReportingLines.AboveSplit(staff, scope, manager, steps, 1);
      WayOut(staff, company, manager, id, steps);
      return true;
    }

    /** `AdminEmployeeService.update` */
    method UpdateEmployee(id: EmployeeId, update: EmployeeUpdate) returns (r: Result<Employee, AdminError>)
      modifies this`tables
      ensures r.Ok? <==> Directory.UpdateEmployee(old(tables), company, id, update).Ok?
      ensures r.Err? ==> Err(r.error) == Directory.UpdateEmployee(old(tables), company, id, update)
      ensures tables == After(old(tables), OpUpdateEmployee(company, id, update))
      ensures r.Ok? ==> id in tables.staff && tables.staff[id] == r.value
    {
      hide ClearWay;
      var employee := Get(id);
      if employee.None? {
        return Err(NotFound);
      }
      if update.status == Some(TERMINATED) {
        return Err(Invalid);
      }
      if update.email {
        if update.emailTaken {
          return Err(Conflict);
        }
        if employee.value.account.None? {
          return Err(Invalid);
        }
      }
      if update.manager.Some? {
        var manager := Get(update.manager.value);
        if manager.None? || manager.value.account.None? || manager.value.status != ACTIVE {
          return Err(Invalid);
        }
        if update.manager.value == id {
          SelfIsAbove(tables.staff, company, id);
          return Err(Invalid);
        }
        var clear := WalkUp(id, update.manager.value);
        if !clear {
          return Err(Invalid);
        }
      }
      var row := employee.value;
      if update.manager.Some? {
        row := row.(manager := update.manager);
      }
      if update.status.Some? {
        row := row.(status := update.status.value);
      }
      tables := tables.(staff := tables.staff[id := row]);
      return Ok(row);
    }

    /** `AdminEmployeeService.soft_delete` */
    method SoftDeleteEmployee(id: EmployeeId, pendingActions: bool) returns (r: Result<bool, AdminError>)
      modifies this`tables
      ensures r.Ok? <==> Directory.SoftDeleteEmployee(old(tables), company, id, pendingActions).Ok?
      ensures r.Err? ==> Err(r.error) == Directory.SoftDeleteEmployee(old(tables), company, id, pendingActions)
      ensures tables == After(old(tables), OpSoftDeleteEmployee(company, id, pendingActions))
    {
      var employee := Get(id);
      if employee.None? {
        return Err(NotFound);
      }
      if employee.value.account.Some? && employee.value.account.value.leadsDepartment {
        return Err(Conflict);
      }
      if HoldsAssets(tables, company, id) {
        return Err(Conflict);
      }
      if employee.value.account.Some? && pendingActions {
        return Err(Conflict);
      }
      var row := employee.value;
      if row.account.Some? {
        row := row.(account := Some(row.account.value.(active := false)));
      }
      tables := tables.(staff := tables.staff[id := row.(status := TERMINATED)]);
      return Ok(true);
    }

    /** `_validate_assignment`: the dictionary of values loses or gains a status on the way. */
    method ValidateAssignment(assignee: Field<EmployeeId>, status: Field<AssetStatus>) returns (r: Result<Field<AssetStatus>, AdminError>)
      ensures r == Directory.ValidateAssignment(tables.staff, company, assignee, status)
    {
      var values := status;
      if assignee.Get().Some? {
        var employee := Get(assignee.Get().value);
        if employee.None? || employee.value.status != ACTIVE {
          return Err(Invalid);
        }
        if status.Get() !in {None, Some(ASSIGNED)} {
          return Err(Invalid);
        }
        values := SetTo(Some(ASSIGNED));
      } else if status.Get() == Some(ASSIGNED) {
        return Err(Invalid);
      } else if assignee.SetTo? && status.Get() == None {
        values := SetTo(Some(AVAILABLE));
      }
      return Ok(values);
    }

    /** `AdminAssetService.create` */
    method CreateAsset(id: AssetId, assignee: Field<EmployeeId>, status: Option<AssetStatus>) returns (r: Result<Asset, AdminError>)
      requires id !in tables.assets
      modifies this`tables
      ensures r.Ok? <==> Directory.CreateAsset(old(tables), company, id, assignee, status).Ok?
      ensures r.Err? ==> Err(r.error) == Directory.CreateAsset(old(tables), company, id, assignee, status)
      ensures tables == After(old(tables), OpCreateAsset(company, id, assignee, status))
      ensures r.Ok? ==> id in tables.assets && tables.assets[id] == r.value
    {
      hide Directory.ValidateAssignment;
      var values := ValidateAssignment(assignee, if status.None? then Unset else SetTo(status));
      if values.Err? {
        return Err(values.error);
      }
      var initial := AVAILABLE;
      if values.value.Get().Some? {
        initial := values.value.Get().value;
      }
      var row := Asset(company, initial, assignee.Get(), 1);
      tables := tables.(assets := tables.assets[id := row]);
      return Ok(row);
    }

    /** `AdminAssetService.update` */
    method UpdateAsset(id: AssetId, update: AssetUpdate) returns (r: Result<Asset, AdminError>)
      modifies this`tables
      ensures r.Ok? <==> Directory.UpdateAsset(old(tables), company, id, update).Ok?
      ensures r.Err? ==> Err(r.error) == Directory.UpdateAsset(old(tables), company, id, update)
      ensures tables == After(old(tables), OpUpdateAsset(company, id, update))
      ensures r.Ok? ==> id in tables.assets && tables.assets[id] == r.value
    {
      hide Directory.ValidateAssignment;
      if !VisibleAsset(tables, company, id) {
        return Err(NotFound);
      }
      var asset := tables.assets[id];
      if asset.status == RETIRED {
        return Err(Invalid);
      }
      var values := ValidateAssignment(update.assignee, update.status);
      if values.Err? {
        return Err(values.error);
      }
      var field := values.value;
      if field.Get() == Some(RETIRED) && (asset.assignee.Some? || update.assignee.Get().Some?) {
        return Err(Conflict);
      }
      if update.assignee.Unset? && field.Unset? && !update.others {
        return Ok(asset);
      }
      if asset.version != update.version {
        return Err(OptimisticLock);
      }
      if field == SetTo(None) {
        return Err(IntegrityFailure);
      }
      var row := asset.(version := update.version + 1);
      if field.SetTo? {
        row := row.(status := field.value.value);
      }
      if update.assignee.SetTo? {
        row := row.(assignee := update.assignee.value);
      }
      tables := tables.(assets := tables.assets[id := row]);
      return Ok(row);
    }

    /** `AdminAssetService.soft_delete` */
    method SoftDeleteAsset(id: AssetId) returns (r: Result<bool, AdminError>)
      modifies this`tables
      ensures r.Ok? <==> Directory.SoftDeleteAsset(old(tables), company, id).Ok?
      ensures r.Err? ==> Err(r.error) == Directory.SoftDeleteAsset(old(tables), company, id)
      ensures tables == After(old(tables), OpSoftDeleteAsset(company, id))
    {
      if !VisibleAsset(tables, company, id) {
        return Err(NotFound);
      }
      if tables.assets[id].assignee.Some? {
        return Err(Conflict);
      }
      tables := tables.(assets := tables.assets[id := tables.assets[id].(status := RETIRED)]);
      return Ok(true);
    }
  }

  lemma SelfIsAbove(staff: Staff, company: CompanyId, id: EmployeeId)
    ensures !ClearWay(staff, company, id, id)
  {
    assert Above(staff, Some(company), id, 0) == Some(id);
  }

  /** The walk stands at a row it has visited before, or at the employee: the chain has no end, or meets the employee. */
  lemma NoWayOut(staff: Staff, company: CompanyId, m: EmployeeId, id: EmployeeId, j: nat)
    requires Above(staff, Some(company), m, j).Some?
    requires Above(staff, Some(company), m, j) == Some(id) ||
      exists i: nat :: i < j && Above(staff, Some(company), m, i) == Above(staff, Some(company), m, j)
    ensures !ClearWay(staff, company, m, id)
  {
    if Above(staff, Some(company), m, j) != Some(id) {
      var i: nat :| i < j && Above(staff, Some(company), m, i) == Above(staff, Some(company), m, j);
      forall n: nat ensures Above(staff, Some(company), m, n) != None {
        ReportingLines.ReturningChainGoesOn(staff, Some(company), m, i, j, n);
      }
    }
  }

  lemma WayOut(staff: Staff, company: CompanyId, m: EmployeeId, id: EmployeeId, steps: nat)
    requires Above(staff, Some(company), m, steps + 1) == None
    requires forall k: nat | k <= steps :: Above(staff, Some(company), m, k) != Some(id)
    ensures ClearWay(staff, company, m, id)
  {
    forall k: nat ensures Above(staff, Some(company), m, k) != Some(id) {
      if k > steps {
        ReportingLines.OverStaysOver(staff, Some(company), m, steps + 1, k);
      }
    }
  }
}
