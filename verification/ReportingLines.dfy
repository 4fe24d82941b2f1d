/** The reporting graph of `AdminEmployeeService`: what the walk of `update` decides, and that it keeps the graph acyclic. */
module ReportingLines {
  import opened Common
  import opened Directory

  type Scope = Option<CompanyId>

  // ----- chains -----

  lemma {:induction false} AboveSplit(staff: Staff, scope: Scope, x: EmployeeId, m: nat, n: nat)
    ensures Above(staff, scope, x, m + n) ==
      match Above(staff, scope, x, m)
      case None => None
      case Some(y) => Above(staff, scope, y, n)
    decreases m
  {
    if m == 0 {
    } else {
      var b := Boss(staff, scope, x);
      if b.Some? {
        AboveSplit(staff, scope, b.value, m - 1, n);
        assert Above(staff, scope, x, m + n) == Above(staff, scope, b.value, m - 1 + n);
      }
    }
  }

  /** Once a chain is over it stays over. */
  lemma OverStaysOver(staff: Staff, scope: Scope, x: EmployeeId, m: nat, n: nat)
    requires m <= n && Above(staff, scope, x, m) == None
    ensures Above(staff, scope, x, n) == None
  {
    AboveSplit(staff, scope, x, m, n - m);
  }

  /** A chain that comes back to a row it has visited never ends. */
  lemma {:induction false} ReturningChainGoesOn(staff: Staff, scope: Scope, x: EmployeeId, i: nat, j: nat, n: nat)
    requires i < j && Above(staff, scope, x, i).Some? && Above(staff, scope, x, i) == Above(staff, scope, x, j)
    ensures Above(staff, scope, x, n).Some?
    decreases n
  {
    if n <= j {
      if Above(staff, scope, x, n) == None {
        OverStaysOver(staff, scope, x, n, j);
      }
    } else {
      ReturningChainGoesOn(staff, scope, x, i, j, n - (j - i));
      AboveSplit(staff, scope, x, i, n - j);
      AboveSplit(staff, scope, x, j, n - j);
    }
  }

  /** In an acyclic graph nobody stands above himself. */
  lemma NobodyAboveHimself(staff: Staff, x: EmployeeId, n: nat)
    requires Acyclic(staff) && x in staff && n > 0
    ensures Above(staff, None, x, n) != Some(x)
  {
    if Above(staff, None, x, n) == Some(x) {
      var e: nat :| Above(staff, None, x, e) == None;
      ReturningChainGoesOn(staff, None, x, 0, n, e);
    }
  }

  // ----- changing one manager -----

  /** Chains that avoid the changed row are the same before and after. */
  lemma {:induction false} AvoidingChain(staff: Staff, staff': Staff, e: EmployeeId, x: EmployeeId, n: nat)
    requires SameBut(staff, staff', e)
    requires forall k: nat | k < n :: Above(staff, None, x, k) != Some(e)
    ensures Above(staff', None, x, n) == Above(staff, None, x, n)
    decreases n
  {
    if n == 0 {
    } else {
      assert Above(staff, None, x, 0) != Some(e);
      var b := Boss(staff, None, x);
      assert Boss(staff', None, x) == b;
      if b.Some? {
        forall k: nat | k < n - 1 ensures Above(staff, None, b.value, k) != Some(e) {
          assert Above(staff, None, x, k + 1) == Above(staff, None, b.value, k);
        }
        AvoidingChain(staff, staff', e, b.value, n - 1);
      }
    }
  }

  /** An acyclic table is one in which nobody is above himself. */
  lemma AcyclicExactlyWhen(staff: Staff)
    ensures Acyclic(staff) <==> forall x, n: nat | x in staff && n > 0 :: Above(staff, None, x, n) != Some(x)
  {
    hide Acyclic, Ends;
    if Acyclic(staff) {
      forall x, n: nat | x in staff && n > 0 ensures Above(staff, None, x, n) != Some(x) {
        NobodyAboveHimself(staff, x, n);
      }
    } else {
      var x := Endless(staff);
      var y, n := Returning(staff, x);
      assert Above(staff, None, y, n) == Some(y);
    }
  }

  lemma Endless(staff: Staff) returns (x: EmployeeId)
    requires !Acyclic(staff)
    ensures x in staff && forall n: nat :: Above(staff, None, x, n).Some?
  {
    x :| x in staff && !Ends(staff, None, x);
    forall n: nat ensures Above(staff, None, x, n).Some? {
    }
  }

  /** A chain without end comes back to one of its members. */
  lemma Returning(staff: Staff, x: EmployeeId) returns (y: EmployeeId, n: nat)
    requires x in staff && forall n: nat :: Above(staff, None, x, n).Some?
    ensures y in staff && n > 0 && Above(staff, None, y, n) == Some(y)
  {
    if i: nat, j: nat :| i < j && Above(staff, None, x, i) == Above(staff, None, x, j) {
      y, n := Above(staff, None, x, i).value, j - i;
      AboveSplit(staff, None, x, i, n);
      AboveIsRow(staff, x, i);
    } else {
      var seen := DistinctChain(staff, x, |staff|);
      SubsetIsSmaller(seen, staff.Keys);
      assert false;
    }
  }

  lemma {:induction false} AboveIsRow(staff: Staff, x: EmployeeId, n: nat)
    requires x in staff && Above(staff, None, x, n).Some?
    ensures Above(staff, None, x, n).value in staff
    decreases n
  {
    if n == 0 {
    } else {
      AboveIsRow(staff, Boss(staff, None, x).value, n - 1);
    }
  }

  ghost predicate OnChain(staff: Staff, x: EmployeeId, n: nat, y: EmployeeId) {
    exists i: nat :: i <= n && Above(staff, None, x, i) == Some(y)
  }

  lemma {:induction false} DistinctChain(staff: Staff, x: EmployeeId, n: nat) returns (seen: set<EmployeeId>)
    requires x in staff && forall n: nat :: Above(staff, None, x, n).Some?
    requires forall i: nat, j: nat | i < j :: Above(staff, None, x, i) != Above(staff, None, x, j)
    ensures |seen| == n + 1 && seen <= staff.Keys
    ensures forall y | y in seen :: OnChain(staff, x, n, y)
  {
    hide Above;
    AboveIsRow(staff, x, n);
    var last := Above(staff, None, x, n).value;
    assert OnChain(staff, x, n, last);
    if n == 0 {
      seen := {last};
    } else {
      var before := DistinctChain(staff, x, n - 1);
      forall y | y in before ensures y != last && OnChain(staff, x, n, y) {
        var i: nat :| i <= n - 1 && Above(staff, None, x, i) == Some(y);
        assert Above(staff, None, x, i) != Above(staff, None, x, n);
      }
      seen := before + {last};
    }
  }

  lemma {:induction false} SubsetIsSmaller(a: set<EmployeeId>, b: set<EmployeeId>)
    requires a <= b
    ensures |a| <= |b|
  {
    if a == {} {
    } else {
      var x :| x in a;
      SubsetIsSmaller(a - {x}, b - {x});
    }
  }

  /** The tables have the same rows, and only `e` may report to somebody else. */
  ghost predicate SameBut(staff: Staff, staff': Staff, e: EmployeeId) {
    && e in staff && staff.Keys == staff'.Keys
    && forall x | x in staff && x != e :: staff[x].manager == staff'[x].manager
  }

  lemma {:induction false} StillEnds(staff: Staff, staff': Staff, e: EmployeeId, x: EmployeeId, n: nat)
    requires SameBut(staff, staff', e) && Above(staff, None, x, n) == None
    requires Ends(staff', None, e)
    ensures Ends(staff', None, x)
    decreases n
  {
    var b := Boss(staff, None, x);
    if x == e {
    } else {
      assert Boss(staff', None, x) == b;
      if b.None? {
        assert Above(staff', None, x, 1) == None;
      } else {
        StillEnds(staff, staff', e, b.value, n - 1);
        var k: nat :| Above(staff', None, b.value, k) == None;
        assert Above(staff', None, x, k + 1) == None;
      }
    }
  }

  /**
   * Giving `e` the manager `m` keeps an acyclic table acyclic exactly when `e` is not above `m` already, all companies
   * considered.
   */
  lemma NewManagerKeepsAcyclic(staff: Staff, staff': Staff, e: EmployeeId, m: EmployeeId)
    requires Acyclic(staff) && SameBut(staff, staff', e) && m in staff && staff'[e].manager == Some(m)
    ensures Acyclic(staff') <==> !IsAbove(staff, None, e, m)
  {
    var n: nat :| Above(staff, None, m, n) == None;
    if IsAbove(staff, None, e, m) {
      var k: nat :| Above(staff, None, m, k) == Some(e);
      var j := FirstTime(staff, m, e, k);
      AvoidingChain(staff, staff', e, m, j);
      assert Above(staff', None, e, j + 1) == Above(staff', None, m, j);
      if Acyclic(staff') {
        NobodyAboveHimself(staff', e, j + 1);
      }
    } else {
      AvoidingChain(staff, staff', e, m, n);
      assert Above(staff', None, e, n + 1) == None;
      forall x | x in staff' ensures Ends(staff', None, x) {
        var k: nat :| Above(staff, None, x, k) == None;
        StillEnds(staff, staff', e, x, k);
      }
    }
  }

  lemma {:induction false} FirstTime(staff: Staff, x: EmployeeId, e: EmployeeId, k: nat) returns (j: nat)
    requires Above(staff, None, x, k) == Some(e)
    ensures j <= k && Above(staff, None, x, j) == Some(e)
    ensures forall i: nat | i < j :: Above(staff, None, x, i) != Some(e)
  {
    if i: nat :| i < k && Above(staff, None, x, i) == Some(e) {
      j := FirstTime(staff, x, e, i);
    } else {
      j := k;
    }
  }

  lemma SameManagersKeepAcyclic(staff: Staff, staff': Staff, e: EmployeeId)
    requires Acyclic(staff) && SameBut(staff, staff', e) && staff'[e].manager == staff[e].manager
    ensures Acyclic(staff')
  {
    forall x | x in staff' ensures Ends(staff', None, x) {
      var k: nat :| Above(staff, None, x, k) == None;
      SameManagersSameChain(staff, staff', x, k);
    }
  }

  lemma {:induction false} SameManagersSameChain(staff: Staff, staff': Staff, x: EmployeeId, n: nat)
    requires staff.Keys == staff'.Keys && forall y | y in staff :: staff[y].manager == staff'[y].manager
    ensures Above(staff', None, x, n) == Above(staff, None, x, n)
    decreases n
  {
    var b := Boss(staff, None, x);
    if n == 0 || b.None? {
    } else {
      SameManagersSameChain(staff, staff', b.value, n - 1);
    }
  }

  /** A new row has nobody below it, so it closes no circle, whoever its manager is. */
  lemma NewRowKeepsAcyclic(staff: Staff, id: EmployeeId, row: Employee)
    requires Acyclic(staff) && id !in staff
    requires forall x | x in staff :: staff[x].manager != Some(id)
    requires row.manager.Some? ==> row.manager.value in staff
    ensures Acyclic(staff[id := row])
  {
    var staff' := staff[id := row];
    forall x | x in staff ensures Ends(staff', None, x) {
      var k: nat :| Above(staff, None, x, k) == None;
      NewRowKeepsChain(staff, id, row, x, k);
    }
    if row.manager.Some? {
      var k: nat :| Above(staff', None, row.manager.value, k) == None;
      assert Above(staff', None, id, k + 1) == None;
    } else {
      assert Above(staff', None, id, 1) == None;
    }
  }

  lemma {:induction false} NewRowKeepsChain(staff: Staff, id: EmployeeId, row: Employee, x: EmployeeId, n: nat)
    requires id !in staff && x in staff && forall y | y in staff :: staff[y].manager != Some(id)
    ensures Above(staff[id := row], None, x, n) == Above(staff, None, x, n)
    decreases n
  {
    var b := Boss(staff, None, x);
    assert Boss(staff[id := row], None, x) == b;
    if n == 0 || b.None? {
    } else {
      NewRowKeepsChain(staff, id, row, b.value, n - 1);
    }
  }

  // ----- exactly when operations keep the graph acyclic -----

  /** The foreign key of `manager_employee_id`. */
  ghost predicate ManagersExist(staff: Staff) {
    forall x | x in staff && staff[x].manager.Some? :: staff[x].manager.value in staff
  }

  /** An accepted update that puts an employee below somebody whom he is above, across companies if need be. */
  ghost predicate ClosesCircle(s: State, op: Op) {
    && op.OpUpdateEmployee? && op.update.manager.Some? && Apply(s, op).Ok?
    && IsAbove(s.staff, None, op.employee, op.update.manager.value)
  }

  lemma StepKeepsManagers(s: State, op: Op)
    requires ManagersExist(s.staff) && Enabled(s, op)
    ensures ManagersExist(After(s, op).staff)
  {
    hide ClearWay, HoldsAssets, ValidateAssignment;
  }

  /** Of all operations only such an update closes a circle, and it always does. */
  lemma StepKeepsAcyclicExactlyWhen(s: State, op: Op)
    requires Acyclic(s.staff) && ManagersExist(s.staff) && Enabled(s, op)
    ensures Acyclic(After(s, op).staff) <==> !ClosesCircle(s, op)
  {
    hide Acyclic, IsAbove, Ends, ClearWay, HoldsAssets, ValidateAssignment;
    var s' := After(s, op);
    match op
    case OpCreateEmployee(company, id, manager, status, valid) =>
      if Apply(s, op).Ok? {
        NewRowKeepsAcyclic(s.staff, id, s'.staff[id]);
      }
    case OpUpdateEmployee(company, id, update) =>
      if Apply(s, op).Ok? {
        if update.manager.Some? {
          NewManagerKeepsAcyclic(s.staff, s'.staff, id, update.manager.value);
        } else {
          SameManagersKeepAcyclic(s.staff, s'.staff, id);
        }
      }
    case OpSoftDeleteEmployee(company, id, pending) =>
      if Apply(s, op).Ok? {
        SameManagersKeepAcyclic(s.staff, s'.staff, id);
      }
    case OpCreateAsset(_, _, _, _) =>
    case OpUpdateAsset(_, _, _) =>
    case OpSoftDeleteAsset(_, _) =>
  }

  ghost predicate AlwaysAcyclic(ops: seq<Op>, n: nat)
    requires n <= |ops|
  {
    forall i: nat | i <= n :: Acyclic(StateAt(ops, i).staff)
  }

  ghost predicate NeverClosesCircle(ops: seq<Op>, n: nat)
    requires n <= |ops|
  {
    forall i | 0 <= i < n :: !ClosesCircle(StateAt(ops, i), ops[i])
  }

  /** The graph is acyclic all along a run exactly if none of its operations is such an update. */
  lemma {:induction false} RunIsAcyclicExactlyWhen(ops: seq<Op>, n: nat)
    requires IsRun(ops) && n <= |ops|
    ensures ManagersExist(StateAt(ops, n).staff)
    ensures AlwaysAcyclic(ops, n) <==> NeverClosesCircle(ops, n)
  {
    hide Acyclic, ClosesCircle, ManagersExist, After;
    if n == 0 {
      NoStaffIsAcyclic();
    } else {
      RunIsAcyclicExactlyWhen(ops, n - 1);
      var s, op := StateAt(ops, n - 1), ops[n - 1];
      StepKeepsManagers(s, op);
      assert StateAt(ops, n) == After(s, op);
      if Acyclic(s.staff) {
        StepKeepsAcyclicExactlyWhen(s, op);
      }
    }
  }

  lemma NoStaffIsAcyclic()
    ensures Acyclic(EMPTY.staff) && ManagersExist(EMPTY.staff)
  {
  }

  // ----- one company's view -----

  /** Every manager exists and works for the same company. */
  ghost predicate Local(staff: Staff) {
    forall x | x in staff && staff[x].manager.Some? ::
      staff[x].manager.value in staff && staff[staff[x].manager.value].company == staff[x].company
  }

  /** Then a company sees the whole chain above each of its employees. */
  lemma {:induction false} LocalChain(staff: Staff, company: CompanyId, x: EmployeeId, n: nat)
    requires Local(staff) && Visible(staff, Some(company), x)
    ensures Above(staff, Some(company), x, n) == Above(staff, None, x, n)
    decreases n
  {
    var b := Boss(staff, None, x);
    assert Boss(staff, Some(company), x) == b;
    if n == 0 || b.None? {
    } else {
      LocalChain(staff, company, b.value, n - 1);
    }
  }

  /** On an acyclic table the walk of `update` rejects exactly the managers below the employee. */
  lemma WalkRejectsExactlySubordinates(staff: Staff, company: CompanyId, m: EmployeeId, e: EmployeeId)
    requires Acyclic(staff) && Local(staff) && Visible(staff, Some(company), m)
    ensures ClearWay(staff, company, m, e) <==> !IsAbove(staff, None, e, m)
  {
    forall n: nat ensures Above(staff, Some(company), m, n) == Above(staff, None, m, n) {
      LocalChain(staff, company, m, n);
    }
  }

  // ----- runs -----

  /** What `create` does not check: the manager works for the company of the new employee. */
  predicate CreatesLocally(s: State, op: Op) {
    op.OpCreateEmployee? && op.manager.Some? && op.manager.value in s.staff ==> s.staff[op.manager.value].company == op.company
  }

  /** A create that goes through keeps managers within companies exactly when its own manager is. */
  lemma CreateKeepsLocalExactlyWhen(s: State, op: Op)
    requires Local(s.staff) && op.OpCreateEmployee? && Enabled(s, op) && Apply(s, op).Ok?
    ensures Local(After(s, op).staff) <==> CreatesLocally(s, op)
  {
    var staff' := After(s, op).staff;
    assert staff'[op.employee].manager == op.manager;
    if CreatesLocally(s, op) {
      forall x | x in staff' && staff'[x].manager.Some? ensures
          staff'[x].manager.value in staff' && staff'[staff'[x].manager.value].company == staff'[x].company {
        if x != op.employee { assert x in s.staff; }
      }
    }
  }

  lemma StepKeepsLines(s: State, op: Op)
    requires Acyclic(s.staff) && Local(s.staff) && Enabled(s, op) && CreatesLocally(s, op)
    ensures Acyclic(After(s, op).staff) && Local(After(s, op).staff)
  {
    hide Acyclic, IsAbove, Ends, HoldsAssets, ValidateAssignment;
    StepKeepsAcyclicExactlyWhen(s, op);
    if op.OpCreateEmployee? && Apply(s, op).Ok? {
      CreateKeepsLocalExactlyWhen(s, op);
    }
    if op.OpUpdateEmployee? && op.update.manager.Some? && Apply(s, op).Ok? {
      WalkRejectsExactlySubordinates(s.staff, op.company, op.update.manager.value, op.employee);
    }
  }

  /** Local tables hide no chain from the walk: if all creates name managers of their own company, no circle closes. */
  lemma {:induction false} RunsStayAcyclic(ops: seq<Op>, n: nat)
    requires IsRun(ops) && n <= |ops|
    requires forall i | 0 <= i < n :: CreatesLocally(StateAt(ops, i), ops[i])
    ensures Acyclic(StateAt(ops, n).staff) && Local(StateAt(ops, n).staff)
  {
    if n == 0 {
    } else {
      RunsStayAcyclic(ops, n - 1);
      StepKeepsLines(StateAt(ops, n - 1), ops[n - 1]);
    }
  }

  /**
   * Without that check a circle through two companies can close: employee 1 of company 0, employee 2 of company 1 below
   * employee 1, employee 3 of company 0 below employee 2, and then employee 1 below employee 3.
   */
  lemma ForeignManagersCanCloseACircle() returns (ops: seq<Op>)
    ensures IsRun(ops) && |ops| == 4 && !CreatesLocally(StateAt(ops, 1), ops[1])
    ensures Apply(StateAt(ops, 3), ops[3]).Ok?
    ensures Above(StateAt(ops, 4).staff, None, 1, 3) == Some(1)
  {
    var one := Employee(0, Some(Account(true, false)), ACTIVE, None);
    var two := Employee(1, Some(Account(true, false)), ACTIVE, Some(1));
    var three := Employee(0, Some(Account(true, false)), ACTIVE, Some(2));
    var change := EmployeeUpdate(Some(3), None, false, false);
    ops := [OpCreateEmployee(0, 1, None, ACTIVE, true), OpCreateEmployee(1, 2, Some(1), ACTIVE, true),
            OpCreateEmployee(0, 3, Some(2), ACTIVE, true), OpUpdateEmployee(0, 1, change)];
    var s1, s2, s3 := StateAt(ops, 1), StateAt(ops, 2), StateAt(ops, 3);
    assert StateAt(ops, 0) == EMPTY && s1 == After(EMPTY, ops[0]);
    assert s1 == State(map[1 := one], map[]);
    assert s2 == State(map[1 := one, 2 := two], map[]);
    assert s3 == State(map[1 := one, 2 := two, 3 := three], map[]);
    ShortWalk(s3.staff);
    var staff := StateAt(ops, 4).staff;
    assert staff == s3.staff[1 := one.(manager := Some(3))];
    assert Above(staff, None, 2, 1) == Some(1) && Above(staff, None, 3, 2) == Above(staff, None, 2, 1);
    assert Above(staff, None, 1, 3) == Above(staff, None, 3, 2);
  }

  lemma ShortWalk(staff: Staff)
    requires Visible(staff, Some(0), 3) && staff[3].manager == Some(2) && !Visible(staff, Some(0), 2)
    ensures ClearWay(staff, 0, 3, 1)
  {
    assert Boss(staff, Some(0), 3) == None;
    assert Above(staff, Some(0), 3, 1) == None;
  }
}
