/**
 * Capability gaps of `backend/app/failures`: one open gap per operation, and a count that loses no report.
 *
 * A key is a company together with a deduplication key; hashing is taken to be injective, so a deduplication key
 * stands for a department scope and a normalized operation.
 */
module CapabilityGaps {
  import opened Common

  datatype GapStatus = OPEN | ACKNOWLEDGED | PLANNED | RESOLVED | REJECTED

  datatype Key = Key(company: nat, dedup: string)

  datatype Gap = Gap(key: Key, status: GapStatus, occurrences: nat, closedBy: Option<nat>)

  type GapId = nat

  /** Rows in the order of insertion; the position is the id. */
  type Gaps = seq<Gap>

  predicate Unresolved(status: GapStatus) {
    status == OPEN || status == ACKNOWLEDGED || status == PLANNED
  }

  datatype Op =
    | Record(key: Key, committed: bool)
    | UpdateStatus(company: nat, id: GapId, status: GapStatus, user: nat)

  /** The row the locked SELECT of `create_or_increment` finds. */
  function Find(gaps: Gaps, key: Key): (id: Option<GapId>)
    ensures id.Some? ==> id.value < |gaps| && gaps[id.value].key == key && Unresolved(gaps[id.value].status)
    ensures id.None? ==> forall i | 0 <= i < |gaps| :: !(gaps[i].key == key && Unresolved(gaps[i].status))
  {
    if gaps == [] then None
    else
      var n := |gaps| - 1;
      if gaps[n].key == key && Unresolved(gaps[n].status) then Some(n) else Find(gaps[..n], key)
  }

  /** `CapabilityGapService.record`; a later failure in the same transaction rolls everything back. */
  function Recorded(gaps: Gaps, key: Key, committed: bool): Gaps {
    if !committed then gaps
    else match Find(gaps, key)
      case None => gaps + [Gap(key, OPEN, 1, None)]
      case Some(i) => gaps[i := gaps[i].(occurrences := gaps[i].occurrences + 1)]
  }

  /** The partial unique index refuses a second unresolved row with the key of row `id`. */
  predicate Reopenable(gaps: Gaps, id: GapId)
    requires id < |gaps|
  {
    forall i | 0 <= i < |gaps| && i != id :: !(gaps[i].key == gaps[id].key && Unresolved(gaps[i].status))
  }

  predicate UpdateAccepted(gaps: Gaps, company: nat, id: GapId, status: GapStatus) {
    && id < |gaps| && gaps[id].key.company == company
    && (Unresolved(status) ==> Reopenable(gaps, id))
  }

  function StatusUpdated(gaps: Gaps, company: nat, id: GapId, status: GapStatus, user: nat): Gaps {
    if UpdateAccepted(gaps, company, id, status)
    then gaps[id := gaps[id].(status := status, closedBy := if Unresolved(status) then None else Some(user))]
    else gaps
  }

  function After(gaps: Gaps, op: Op): Gaps {
    match op
    case Record(key, committed) => Recorded(gaps, key, committed)
    case UpdateStatus(company, id, status, user) => StatusUpdated(gaps, company, id, status, user)
  }

  function Run(ops: seq<Op>): Gaps {
    if ops == [] then [] else After(Run(ops[..|ops| - 1]), ops[|ops| - 1])
  }

  // ----- one unresolved gap per key -----

  ghost predicate OneUnresolved(gaps: Gaps) {
    forall i, j | 0 <= i < j < |gaps| && gaps[i].key == gaps[j].key ::
      !(Unresolved(gaps[i].status) && Unresolved(gaps[j].status))
  }

  ghost predicate RowsOk(gaps: Gaps) {
    forall i | 0 <= i < |gaps| :: gaps[i].occurrences > 0 && (gaps[i].closedBy.None? <==> Unresolved(gaps[i].status))
  }

  lemma StepKeepsOneUnresolved(gaps: Gaps, op: Op)
    requires OneUnresolved(gaps) && RowsOk(gaps)
    ensures OneUnresolved(After(gaps, op)) && RowsOk(After(gaps, op))
  {
  }

  /** Reopening goes through exactly when no other gap with the key is unresolved. */
  lemma ReopensExactlyWhen(gaps: Gaps, id: GapId, status: GapStatus, user: nat)
    requires OneUnresolved(gaps) && RowsOk(gaps) && id < |gaps|
    requires !Unresolved(gaps[id].status) && Unresolved(status)
    ensures StatusUpdated(gaps, gaps[id].key.company, id, status, user) != gaps <==> Find(gaps, gaps[id].key).None?
  {
    var updated := StatusUpdated(gaps, gaps[id].key.company, id, status, user);
    if Find(gaps, gaps[id].key).None? {
      assert updated[id].status == status;
    }
  }

  /** An accepted change of status is written as requested, with its author where it closes the gap, and nowhere else. */
  lemma StatusIsWritten(gaps: Gaps, company: nat, id: GapId, status: GapStatus, user: nat)
    requires UpdateAccepted(gaps, company, id, status)
    ensures var after := StatusUpdated(gaps, company, id, status, user);
      && |after| == |gaps| && (forall i | 0 <= i < |gaps| && i != id :: after[i] == gaps[i])
      && after[id] == Gap(gaps[id].key, status, gaps[id].occurrences, if status in {RESOLVED, REJECTED} then Some(user) else None)
  {
  }

  // ----- conservation -----

  /** The reports that all gaps with a key account for. */
  function Occurrences(gaps: Gaps, key: Key): nat {
    if gaps == [] then 0
    else Occurrences(gaps[..|gaps| - 1], key) + if gaps[|gaps| - 1].key == key then gaps[|gaps| - 1].occurrences else 0
  }

  /** The `record` calls with a key that were committed. */
  function Reports(ops: seq<Op>, key: Key): nat {
    if ops == [] then 0
    else
      var op := ops[|ops| - 1];
      Reports(ops[..|ops| - 1], key) + if op.Record? && op.committed && op.key == key then 1 else 0
  }

  lemma {:induction false} UpdatedOccurrences(gaps: Gaps, id: GapId, row: Gap, key: Key)
    requires id < |gaps| && row.key == gaps[id].key
    ensures Occurrences(gaps[id := row], key) ==
      Occurrences(gaps, key) + if row.key == key then row.occurrences - gaps[id].occurrences else 0
  {
    var n := |gaps| - 1;
    var updated := gaps[id := row];
    if id == n {
      assert updated[..n] == gaps[..n];
    } else {
      UpdatedOccurrences(gaps[..n], id, row, key);
      assert updated[..n] == gaps[..n][id := row];
    }
  }

  lemma StepConserves(gaps: Gaps, op: Op, key: Key)
    ensures Occurrences(After(gaps, op), key) ==
      Occurrences(gaps, key) + if op.Record? && op.committed && op.key == key then 1 else 0
  {
    match op
    case Record(k, committed) =>
      if committed {
        var found := Find(gaps, k);
        if found.None? {
          assert (gaps + [Gap(k, OPEN, 1, None)])[..|gaps|] == gaps;
        } else {
          UpdatedOccurrences(gaps, found.value, gaps[found.value].(occurrences := gaps[found.value].occurrences + 1), key);
        }
      }
    case UpdateStatus(company, id, status, user) =>
      if UpdateAccepted(gaps, company, id, status) {
        UpdatedOccurrences(gaps, id, After(gaps, op)[id], key);
      }
  }

  /** Over every run no report is lost or counted twice, and no key has two unresolved gaps. */
  lemma {:induction false} ReportsAreConserved(ops: seq<Op>, key: Key)
    ensures Occurrences(Run(ops), key) == Reports(ops, key)
    ensures OneUnresolved(Run(ops)) && RowsOk(Run(ops))
  {
    if ops == [] {
    } else {
      var front := ops[..|ops| - 1];
      ReportsAreConserved(front, key);
      StepConserves(Run(front), ops[|ops| - 1], key);
      StepKeepsOneUnresolved(Run(front), ops[|ops| - 1]);
    }
  }

  // ----- the repository -----

  class CapabilityGapRepository {
    var gaps: Gaps

    constructor ()
      ensures gaps == []
    {
      gaps := [];
    }

    /** `create_or_increment` inside the transaction of `record`, which may be rolled back at its end. */
    method CreateOrIncrement(key: Key, committed: bool) returns (id: GapId, created: bool)
      modifies this
      ensures gaps == After(old(gaps), Record(key, committed))
      ensures created <==> Find(old(gaps), key).None?
      ensures committed ==> id < |gaps| && gaps[id].key == key && Unresolved(gaps[id].status)
      ensures committed && created ==> gaps == old(gaps) + [Gap(key, OPEN, 1, None)]
      ensures committed && !created ==>
        id < |old(gaps)| && gaps == old(gaps)[id := old(gaps)[id].(occurrences := old(gaps)[id].occurrences + 1)]
      ensures !committed ==> gaps == old(gaps)
    {
      var before := gaps;
      var found := Find(gaps, key);
      created := found.None?;
      if created {
        id := |gaps|;
        gaps := gaps + [Gap(key, OPEN, 1, None)];
      } else {
        id := found.value;
        gaps := gaps[id := gaps[id].(occurrences := gaps[id].occurrences + 1)];
      }
      if !committed {
        gaps := before;
      }
    }

    method UpdateStatus(company: nat, id: GapId, status: GapStatus, user: nat) returns (updated: bool)
      modifies this
      ensures gaps == After(old(gaps), Op.UpdateStatus(company, id, status, user))
      ensures updated <==> UpdateAccepted(old(gaps), company, id, status)
    {
      if id >= |gaps| || gaps[id].key.company != company {
        return false;
      }
      var closed := status == RESOLVED || status == REJECTED;
      if !closed && !Reopenable(gaps, id) {
        return false;
      }
      gaps := gaps[id := gaps[id].(status := status, closedBy := if closed then Some(user) else None)];
      return true;
    }
  }
}
