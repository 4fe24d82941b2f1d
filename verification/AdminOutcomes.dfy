/**
 * What the calls of `AdminEmployeeService` and `AdminAssetService` do, said of their requests and of the rows: which are
 * accepted, and what the tables hold afterwards (`backend/app/admin/service.py`).
 */
module AdminOutcomes {
  import opened Common
  import opened Directory
  import ReportingLines

  /** Row `x` is the only one that differs. */
  ghost predicate OnlyEmployee(before: State, after: State, x: EmployeeId) {
    && after.assets == before.assets && after.staff.Keys == before.staff.Keys + {x}
    && forall y | y in before.staff && y != x :: after.staff[y] == before.staff[y]
  }

  ghost predicate OnlyAsset(before: State, after: State, a: AssetId) {
    && after.staff == before.staff && after.assets.Keys == before.assets.Keys + {a}
    && forall b | b in before.assets && b != a :: after.assets[b] == before.assets[b]
  }

  /** A new employee has an account that is open and leads nothing. The manager need only exist. */
  lemma CreationIs(s: State, company: CompanyId, id: EmployeeId, manager: Option<EmployeeId>, status: EmploymentStatus, valid: bool)
    ensures var r := CreateEmployee(s, company, id, manager, status, valid);
      && (r.Ok? <==> valid && (manager.Some? ==> manager.value in s.staff))
      && (r.Ok? ==>
            && OnlyEmployee(s, r.value, id)
            && r.value.staff[id] == Employee(company, Some(Account(true, false)), status, manager))
  {
  }

  /** Whom an employee may be given as manager: an active colleague with an account, nobody below him, not himself. */
  ghost predicate MayManage(staff: Staff, company: CompanyId, m: EmployeeId, id: EmployeeId) {
    && m in staff && staff[m].company == company && staff[m].account.Some? && staff[m].status == ACTIVE
    && m != id && !IsAbove(staff, None, id, m)
  }

  /** When an update is accepted, and what it writes. On acyclic tables of local lines the walk decides nothing else. */
  lemma UpdateIs(s: State, company: CompanyId, id: EmployeeId, u: EmployeeUpdate)
    requires Acyclic(s.staff) && ReportingLines.Local(s.staff)
    ensures var r := UpdateEmployee(s, company, id, u);
      && (r.Ok? <==>
            && id in s.staff && s.staff[id].company == company
            && u.status != Some(TERMINATED)
            && (u.email ==> !u.emailTaken && s.staff[id].account.Some?)
            && (u.manager.Some? ==> MayManage(s.staff, company, u.manager.value, id)))
      && (r.Ok? ==>
            && OnlyEmployee(s, r.value, id)
            && r.value.staff[id].manager == (if u.manager.Some? then u.manager else s.staff[id].manager)
            && r.value.staff[id].status == (if u.status.Some? then u.status.value else s.staff[id].status)
            && r.value.staff[id].account == s.staff[id].account && r.value.staff[id].company == company)
  {
    hide Acyclic, IsAbove, Ends, ReportingLines.Local;
    if u.manager.Some? && Visible(s.staff, Some(company), u.manager.value) {
      ReportingLines.WalkRejectsExactlySubordinates(s.staff, company, u.manager.value, id);
      SelfIsAbove(s.staff, id);
    }
  }

  lemma SelfIsAbove(staff: Staff, id: EmployeeId)
    ensures IsAbove(staff, None, id, id)
  {
    assert Above(staff, None, id, 0) == Some(id);
  }

  /** A deactivation is refused while the employee leads a department, holds an asset, or has actions to take. */
  lemma DeactivationIs(s: State, company: CompanyId, id: EmployeeId, pendingActions: bool)
    ensures var r := SoftDeleteEmployee(s, company, id, pendingActions);
      && (r.Ok? <==>
            && id in s.staff && s.staff[id].company == company
            && (s.staff[id].account.Some? ==> !s.staff[id].account.value.leadsDepartment && !pendingActions)
            && !exists a | a in s.assets :: s.assets[a].company == company && s.assets[a].assignee == Some(id) && s.assets[a].status == ASSIGNED)
      && (r.Ok? ==>
            && OnlyEmployee(s, r.value, id)
            && r.value.staff[id].status == TERMINATED
            && (r.value.staff[id].account.Some? <==> s.staff[id].account.Some?)
            && (r.value.staff[id].account.Some? ==> !r.value.staff[id].account.value.active)
            && r.value.staff[id].manager == s.staff[id].manager && r.value.staff[id].company == company)
  {
  }

  /** The colleague to whom an asset may go. */
  predicate MayHold(staff: Staff, company: CompanyId, e: EmployeeId) {
    e in staff && staff[e].company == company && staff[e].status == ACTIVE
  }

  /** A new asset is ASSIGNED exactly with a holder, and otherwise of the status asked for, or AVAILABLE. */
  lemma AssetCreationIs(s: State, company: CompanyId, id: AssetId, assignee: Field<EmployeeId>, status: Option<AssetStatus>)
    ensures var r := CreateAsset(s, company, id, assignee, status);
      && (r.Ok? <==>
            if assignee.Get().Some?
            then MayHold(s.staff, company, assignee.Get().value) && status in {None, Some(ASSIGNED)}
            else status != Some(ASSIGNED))
      && (r.Ok? ==>
            && OnlyAsset(s, r.value, id)
            && r.value.assets[id] == Asset(
                 company,
                 if assignee.Get().Some? then ASSIGNED else if status.Some? then status.value else AVAILABLE,
                 assignee.Get(), 1))
  {
  }

  /** What an accepted update leaves of an asset. */
  lemma AssetUpdateIs(s: State, company: CompanyId, id: AssetId, u: AssetUpdate)
    requires UpdateAsset(s, company, id, u).Ok? && UpdateAsset(s, company, id, u).value != s
    ensures var after := UpdateAsset(s, company, id, u).value;
      && id in s.assets && s.assets[id].company == company && s.assets[id].status != RETIRED
      && OnlyAsset(s, after, id) && after.assets[id].company == company
      && after.assets[id].version == u.version + 1 == s.assets[id].version + 1
      && after.assets[id].assignee == (if u.assignee.SetTo? then u.assignee.value else s.assets[id].assignee)
      && after.assets[id].status ==
           (if u.assignee.Get().Some? then ASSIGNED
            else if u.status.Get().Some? then u.status.value.value
            else if u.assignee.SetTo? then AVAILABLE
            else s.assets[id].status)
  {
  }

  /** Which requests for a known asset are refused. */
  lemma AssetUpdateIsRefusedExactlyWhen(s: State, company: CompanyId, id: AssetId, u: AssetUpdate)
    requires id in s.assets && s.assets[id].company == company
    ensures var asset, r := s.assets[id], UpdateAsset(s, company, id, u);
      var badHolder := u.assignee.Get().Some? && (!MayHold(s.staff, company, u.assignee.Get().value) || u.status.Get() !in {None, Some(ASSIGNED)});
      var noHolder := u.assignee.Get().None? && u.status.Get() == Some(ASSIGNED);
      var heldRetirement := u.status.Get() == Some(RETIRED) && asset.assignee.Some?;
      var writes := u.assignee.SetTo? || u.status.SetTo? || u.others;
      var noStatus := u.assignee.Unset? && u.status == SetTo(None);
      && (r == Err(Invalid) <==> asset.status == RETIRED || badHolder || noHolder)
      && (r == Err(Conflict) <==> asset.status != RETIRED && !badHolder && !noHolder && heldRetirement)
      && (r == Err(OptimisticLock) <==>
            asset.status != RETIRED && !badHolder && !noHolder && !heldRetirement && writes && asset.version != u.version)
      && (r == Err(IntegrityFailure) <==>
            asset.status != RETIRED && !badHolder && !noHolder && !heldRetirement && asset.version == u.version && noStatus)
      && r != Err(NotFound)
  {
  }

  /** An asset is retired by deletion exactly when nobody holds it. */
  lemma RetirementIs(s: State, company: CompanyId, id: AssetId)
    ensures var r := SoftDeleteAsset(s, company, id);
      && (r.Ok? <==> id in s.assets && s.assets[id].company == company && s.assets[id].assignee.None?)
      && (r.Ok? ==> OnlyAsset(s, r.value, id) && r.value.assets[id] == s.assets[id].(status := RETIRED))
  {
  }
}
