/** The asset table of `AdminAssetService` beside the employee table: what both services together never break. */
module AssetRegister {
  import opened Common
  import opened Directory

  /** An assigned asset is in the hands of a colleague who still works here; a retired one is in nobody's. */
  ghost predicate InOrder(s: State) {
    forall a | a in s.assets :: RowInOrder(s.staff, s.assets[a])
  }

  ghost predicate RowInOrder(staff: Staff, asset: Asset) {
    && (asset.status == ASSIGNED ==>
          && asset.assignee.Some?
          && Visible(staff, Some(asset.company), asset.assignee.value)
          && staff[asset.assignee.value].status != TERMINATED)
    && (asset.status == RETIRED ==> asset.assignee.None?)
  }

  /** A validated pair of fields says ASSIGNED exactly when it names an employee, who is active in this company. */
  lemma ValidatedFields(staff: Staff, company: CompanyId, assignee: Field<EmployeeId>, status: Field<AssetStatus>)
    requires ValidateAssignment(staff, company, assignee, status).Ok?
    ensures var field := ValidateAssignment(staff, company, assignee, status).value;
      && (field.Get() == Some(ASSIGNED) <==> assignee.Get().Some?)
      && (assignee.Get().Some? ==>
            Visible(staff, Some(company), assignee.Get().value) && staff[assignee.Get().value].status == ACTIVE)
      && (assignee.SetTo? ==> field.Get().Some?)
  {
  }

  lemma StepKeepsOrder(s: State, op: Op)
    requires InOrder(s) && Enabled(s, op)
    ensures InOrder(After(s, op))
  {
    hide ClearWay, ValidateAssignment;
    match op
    case OpCreateEmployee(_, _, _, _, _) =>
    case OpUpdateEmployee(_, _, _) =>
    case OpSoftDeleteEmployee(company, id, _) => DeactivationKeepsOrder(s, op);
    case OpCreateAsset(company, id, assignee, status) =>
      if Apply(s, op).Ok? {
        ValidatedFields(s.staff, company, assignee, if status.None? then Unset else SetTo(status));
      }
    case OpUpdateAsset(company, id, change) =>
      if Apply(s, op).Ok? && After(s, op) != s {
        ValidatedFields(s.staff, company, change.assignee, change.status);
      }
    case OpSoftDeleteAsset(_, _) =>
  }

  /** `soft_delete` of an employee looks for assigned assets first, in the company the assets must be of. */
  lemma DeactivationKeepsOrder(s: State, op: Op)
    requires InOrder(s) && op.OpSoftDeleteEmployee?
    ensures InOrder(After(s, op))
  {
    var s' := After(s, op);
    forall a | a in s'.assets ensures RowInOrder(s'.staff, s'.assets[a]) {
      assert RowInOrder(s.staff, s.assets[a]);
    }
  }

  lemma {:induction false} RunsStayInOrder(ops: seq<Op>, n: nat)
    requires IsRun(ops) && n <= |ops|
    ensures InOrder(StateAt(ops, n))
  {
    if n == 0 {
    } else {
      RunsStayInOrder(ops, n - 1);
      StepKeepsOrder(StateAt(ops, n - 1), ops[n - 1]);
    }
  }

  lemma RetiredRowStays(s: State, op: Op, id: AssetId)
    requires Enabled(s, op) && id in s.assets && s.assets[id].status == RETIRED
    ensures id in After(s, op).assets && After(s, op).assets[id] == s.assets[id]
  {
    hide ClearWay, ValidateAssignment;
  }

  /** Once retired, an asset row never changes again. */
  lemma {:induction false} RetiredIsFinal(ops: seq<Op>, id: AssetId, m: nat, n: nat)
    requires IsRun(ops) && m <= n <= |ops|
    requires id in StateAt(ops, m).assets && StateAt(ops, m).assets[id].status == RETIRED
    ensures id in StateAt(ops, n).assets && StateAt(ops, n).assets[id] == StateAt(ops, m).assets[id]
    decreases n - m
  {
    if m == n {
    } else {
      RetiredIsFinal(ops, id, m, n - 1);
      RetiredRowStays(StateAt(ops, n - 1), ops[n - 1], id);
    }
  }

  /** Of two updates that carry the same version at most one changes the row. */
  lemma NoLostUpdate(s: State, company: CompanyId, id: AssetId, first: AssetUpdate, s': State, second: AssetUpdate)
    requires UpdateAsset(s, company, id, first) == Ok(s') && s' != s && second.version == first.version
    ensures id in s.assets && s.assets[id].version == first.version && s'.assets[id].version == first.version + 1
    ensures UpdateAsset(s', company, id, second).Err? || UpdateAsset(s', company, id, second) == Ok(s')
  {
    hide ValidateAssignment;
  }
}
