/** `AdminStaffingRuleService` of `backend/app/admin/service.py` for one company: which rule applies on which day. */
module StaffingRules {
  import opened Common

  type Date = int

  type RuleId = nat

  type DepartmentId = nat

  datatype Rule = Rule(department: DepartmentId, minimum: nat, from: Date, to: Option<Date>, active: bool)

  type Rules = map<RuleId, Rule>

  datatype RuleError = NotFound | Unavailable | Conflict | IntegrityFailure

  datatype RuleUpdate = RuleUpdate(minimum: Field<nat>, from: Field<Date>, to: Field<Date>, active: Field<bool>)

  // ----- days -----

  predicate AppliesOn(rule: Rule, day: Date) {
    rule.from <= day && (rule.to.Some? ==> day <= rule.to.value)
  }

  /** The condition of the query in `_validate_overlap` on the dates of a row. */
  predicate Overlaps(rule: Rule, from: Date, to: Option<Date>) {
    && (rule.to.None? || rule.to.value >= from)
    && (to.Some? ==> rule.from <= to.value)
  }

  /** The table constraint `ck_staffing_rules_dates`. */
  predicate DatesInOrder(from: Date, to: Option<Date>) {
    to.Some? ==> from <= to.value
  }

  /** The query finds exactly the rules that share a day with the new period. */
  lemma OverlapMeansSharedDay(a: Rule, b: Rule)
    requires DatesInOrder(a.from, a.to) && DatesInOrder(b.from, b.to)
    ensures Overlaps(a, b.from, b.to) <==> exists day :: AppliesOn(a, day) && AppliesOn(b, day)
  {
    var later := if a.from < b.from then b.from else a.from;
    if Overlaps(a, b.from, b.to) {
      assert AppliesOn(a, later) && AppliesOn(b, later);
    }
  }

  /** No two active rules of a department apply on the same day. */
  ghost predicate OneRuleADay(rules: Rules) {
    forall x, y, day: Date |
      && x in rules && y in rules && x != y
      && rules[x].active && rules[y].active && rules[x].department == rules[y].department ::
      !(AppliesOn(rules[x], day) && AppliesOn(rules[y], day))
  }

  ghost predicate Valid(rules: Rules) {
    OneRuleADay(rules) && forall x | x in rules :: DatesInOrder(rules[x].from, rules[x].to)
  }

  // ----- the operations -----

  predicate Taken(rules: Rules, department: DepartmentId, from: Date, to: Option<Date>, exclude: Option<RuleId>) {
    exists x | x in rules ::
      rules[x].department == department && rules[x].active && Overlaps(rules[x], from, to) && exclude != Some(x)
  }

  /** The unique constraint on department and first day, and the order of the dates. */
  predicate Storable(rules: Rules, id: RuleId, rule: Rule) {
    && DatesInOrder(rule.from, rule.to)
    && forall x | x in rules && x != id :: !(rules[x].department == rule.department && rules[x].from == rule.from)
  }

  function Created(rules: Rules, id: RuleId, rule: Rule, departmentExists: bool): Result<Rules, RuleError> {
    if !departmentExists then Err(Unavailable)
    else if Taken(rules, rule.department, rule.from, rule.to, None) then Err(Conflict)
    else if !Storable(rules, id, rule) then Err(IntegrityFailure)
    else Ok(rules[id := rule])
  }

  function Changed(rules: Rules, id: RuleId, u: RuleUpdate): Result<Rules, RuleError> {
    if id !in rules then Err(NotFound)
    else
      var r := rules[id];
      var from := if u.from.SetTo? && u.from.value.Some? then u.from.value.value else r.from;
      var to := if u.to.SetTo? then u.to.value else r.to;
      if Taken(rules, r.department, from, to, Some(id)) then Err(Conflict)
      else if u.from == SetTo(None) || u.minimum == SetTo(None) || u.active == SetTo(None) then Err(IntegrityFailure)
      else
        var row := Rule(r.department, if u.minimum.SetTo? then u.minimum.value.value else r.minimum, from, to,
                        if u.active.SetTo? then u.active.value.value else r.active);
        if !Storable(rules, id, row) then Err(IntegrityFailure)
        else Ok(rules[id := row])
  }

  function Removed(rules: Rules, id: RuleId): Result<Rules, RuleError> {
    if id !in rules then Err(NotFound) else Ok(map x | x in rules && x != id :: rules[x])
  }

  /** Some other active rule of the department applies on a day of the period. */
  ghost predicate SharesADay(rules: Rules, department: DepartmentId, from: Date, to: Option<Date>, exclude: Option<RuleId>) {
    exists x, day: Date | x in rules && Some(x) != exclude ::
      && rules[x].department == department && rules[x].active
      && AppliesOn(rules[x], day) && from <= day && (to.Some? ==> day <= to.value)
  }

  lemma TakenMeansSharedDay(rules: Rules, department: DepartmentId, from: Date, to: Option<Date>, exclude: Option<RuleId>)
    requires Valid(rules) && DatesInOrder(from, to)
    ensures Taken(rules, department, from, to, exclude) <==> SharesADay(rules, department, from, to, exclude)
  {
    hide Overlaps;
    var probe := Rule(department, 0, from, to, true);
    forall x | x in rules
      ensures Overlaps(rules[x], from, to) <==> exists day :: AppliesOn(rules[x], day) && AppliesOn(probe, day)
    {
      OverlapMeansSharedDay(rules[x], probe);
    }
  }

  /** Another rule of the department begins on the same day. */
  predicate SameFirstDay(rules: Rules, id: RuleId, department: DepartmentId, from: Date) {
    exists x | x in rules && x != id :: rules[x].department == department && rules[x].from == from
  }

  /** When a rule is accepted, when it is refused as overlapping, and what is stored. */
  lemma CreationIs(rules: Rules, id: RuleId, rule: Rule, departmentExists: bool)
    requires Valid(rules) && id !in rules && DatesInOrder(rule.from, rule.to)
    ensures var r, taken := Created(rules, id, rule, departmentExists), SharesADay(rules, rule.department, rule.from, rule.to, None);
      && (r == Err(Conflict) <==> departmentExists && taken)
      && (r.Ok? <==> departmentExists && !taken && !SameFirstDay(rules, id, rule.department, rule.from))
      && (r.Ok? ==> r.value == rules[id := rule])
  {
    hide Taken, SharesADay;
    TakenMeansSharedDay(rules, rule.department, rule.from, rule.to, None);
  }

  /** What a field of the stored row becomes. */
  predicate Written<T(==)>(field: Field<T>, before: T, after: T) {
    match field
    case Unset => after == before
    case SetTo(None) => false
    case SetTo(Some(v)) => after == v
  }

  /** An accepted change writes each field of the request, keeps the others, and touches no other row. */
  lemma ChangeIs(rules: Rules, id: RuleId, u: RuleUpdate)
    requires Changed(rules, id, u).Ok?
    ensures var after := Changed(rules, id, u).value;
      && id in rules && after.Keys == rules.Keys && (forall x | x in rules && x != id :: after[x] == rules[x])
      && after[id].department == rules[id].department
      && Written(u.minimum, rules[id].minimum, after[id].minimum)
      && Written(u.from, rules[id].from, after[id].from)
      && Written(u.active, rules[id].active, after[id].active)
      && after[id].to == (if u.to.SetTo? then u.to.value else rules[id].to)
  {
  }

  /** When a change of a known rule is accepted: its new period is free, its fields are not null, its first day is new. */
  lemma ChangeAcceptedExactlyWhen(rules: Rules, id: RuleId, u: RuleUpdate, from: Date, to: Option<Date>)
    requires Valid(rules) && id in rules
    requires from == (if u.from.SetTo? && u.from.value.Some? then u.from.value.value else rules[id].from)
    requires to == (if u.to.SetTo? then u.to.value else rules[id].to)
    requires DatesInOrder(from, to)
    ensures Changed(rules, id, u).Ok? <==>
      && !SharesADay(rules, rules[id].department, from, to, Some(id))
      && u.from != SetTo(None) && u.minimum != SetTo(None) && u.active != SetTo(None)
      && !SameFirstDay(rules, id, rules[id].department, from)
    ensures Changed(rules, id, u) == Err(Conflict) <==> SharesADay(rules, rules[id].department, from, to, Some(id))
  {
    hide Taken, SharesADay;
    TakenMeansSharedDay(rules, rules[id].department, from, to, Some(id));
  }

  datatype Op =
    | OpCreate(id: RuleId, rule: Rule, departmentExists: bool)
    | OpUpdate(id: RuleId, update: RuleUpdate)
    | OpDelete(id: RuleId)

  function After(rules: Rules, op: Op): Rules {
    var r := match op
      case OpCreate(id, rule, departmentExists) => if id in rules then Err(IntegrityFailure) else Created(rules, id, rule, departmentExists)
      case OpUpdate(id, update) => Changed(rules, id, update)
      case OpDelete(id) => Removed(rules, id);
    if r.Ok? then r.value else rules
  }

  function Run(ops: seq<Op>): Rules {
    if ops == [] then map[] else After(Run(ops[..|ops| - 1]), ops[|ops| - 1])
  }

  /** A row whose period passed the overlap check may be written, whether or not it is active. */
  lemma WriteKeepsValid(rules: Rules, id: RuleId, row: Rule)
    requires Valid(rules) && DatesInOrder(row.from, row.to)
    requires !Taken(rules, row.department, row.from, row.to, Some(id))
    ensures Valid(rules[id := row])
  {
    var rules' := rules[id := row];
    forall x, day: Date | x in rules && x != id && rules[x].active && rules[x].department == row.department
      ensures !(AppliesOn(rules[x], day) && AppliesOn(row, day))
    {
      OverlapMeansSharedDay(rules[x], row);
    }
  }

  lemma StepKeepsValid(rules: Rules, op: Op)
    requires Valid(rules)
    ensures Valid(After(rules, op))
  {
    hide OneRuleADay, AppliesOn, Overlaps;
    var rules' := After(rules, op);
    if rules' != rules {
      match op
      case OpCreate(id, rule, _) => WriteKeepsValid(rules, id, rule);
      case OpUpdate(id, _) => WriteKeepsValid(rules, id, rules'[id]);
      case OpDelete(_) => FewerKeepValid(rules, rules');
    }
  }

  lemma FewerKeepValid(rules: Rules, fewer: Rules)
    requires Valid(rules) && forall x | x in fewer :: x in rules && fewer[x] == rules[x]
    ensures Valid(fewer)
  {
  }

  /** Over every run each day has at most one active rule per department. */
  lemma {:induction false} RunsKeepOneRuleADay(ops: seq<Op>)
    ensures Valid(Run(ops))
  {
    if ops == [] {
    } else {
      RunsKeepOneRuleADay(ops[..|ops| - 1]);
      StepKeepsValid(Run(ops[..|ops| - 1]), ops[|ops| - 1]);
    }
  }

  class AdminStaffingRuleService {
    var rules: Rules

    constructor ()
      ensures rules == map[]
    {
      rules := map[];
    }

    /** `_validate_overlap` */
    method ValidateOverlap(department: DepartmentId, from: Date, to: Option<Date>, exclude: Option<RuleId>) returns (free: bool)
      ensures free <==> !Taken(rules, department, from, to, exclude)
    {
      var candidates := set x | x in rules && rules[x].department == department && rules[x].active
        && (rules[x].to.None? || rules[x].to.value >= from);
      if to.Some? {
        candidates := set x | x in candidates && rules[x].from <= to.value;
      }
      if exclude.Some? {
        candidates := candidates - {exclude.value};
      }
      assert forall x | x in rules && rules[x].department == department && rules[x].active
        && Overlaps(rules[x], from, to) && exclude != Some(x) :: x in candidates;
      return candidates == {};
    }

    method Create(id: RuleId, rule: Rule, departmentExists: bool) returns (error: Option<RuleError>)
      requires id !in rules
      modifies this
      ensures rules == After(old(rules), OpCreate(id, rule, departmentExists))
      ensures error.None? <==> Created(old(rules), id, rule, departmentExists).Ok?
      ensures error.Some? ==> Created(old(rules), id, rule, departmentExists) == Err(error.value)
    {
      if !departmentExists {
        return Some(Unavailable);
      }
      var free := ValidateOverlap(rule.department, rule.from, rule.to, None);
      if !free {
        return Some(Conflict);
      }
      if !Storable(rules, id, rule) {
        return Some(IntegrityFailure);
      }
      rules := rules[id := rule];
      return None;
    }

    method Update(id: RuleId, u: RuleUpdate) returns (error: Option<RuleError>)
      modifies this
      ensures rules == After(old(rules), OpUpdate(id, u))
      ensures error.None? <==> Changed(old(rules), id, u).Ok?
      ensures error.Some? ==> Changed(old(rules), id, u) == Err(error.value)
    {
      if id !in rules {
        return Some(NotFound);
      }
      var r := rules[id];
      var from, to := r.from, r.to;
      if u.from.SetTo? && u.from.value.Some? {
        from := u.from.value.value;
      }
      if u.to.SetTo? {
        to := u.to.value;
      }
      var free := ValidateOverlap(r.department, from, to, Some(id));
      if !free {
        return Some(Conflict);
      }
      if u.from == SetTo(None) || u.minimum == SetTo(None) || u.active == SetTo(None) {
        return Some(IntegrityFailure);
      }
      var row := r.(from := from, to := to);
      if u.minimum.SetTo? {
        row := row.(minimum := u.minimum.value.value);
      }
      if u.active.SetTo? {
        row := row.(active := u.active.value.value);
      }
      if !Storable(rules, id, row) {
        return Some(IntegrityFailure);
      }
      rules := rules[id := row];
      return None;
    }

    method HardDelete(id: RuleId) returns (error: Option<RuleError>)
      modifies this
      ensures rules == After(old(rules), OpDelete(id))
      ensures error == if id in old(rules) then None else Some(NotFound)
    {
      if id !in rules {
        return Some(NotFound);
      }
      rules := map x | x in rules && x != id :: rules[x];
      return None;
    }
  }
}
