/**
 * Refresh-token rotation of `backend/app/auth` (sections 6 and 10.4 of RFC 6749) as a protocol of concurrent
 * transactions.
 *
 * A transaction of `login` inserts a token and commits. One of `refresh` reads its token, inserts the replacement,
 * revokes the token by an UPDATE that still finds it unrevoked, and commits. Any transaction may stop at any point.
 * The theorems hold for every interleaving, whether or not the first read locks its row (`with_for_update`).
 */
module TokenRotation {
  import opened Common

  /** Ids stand for UUIDs: never used twice. */
  type TokenId = nat

  type TxnId = nat

  datatype Owner = Owner(company: nat, user: nat)

  datatype Token = Token(owner: Owner, expires: nat, revokedAt: Option<nat>, replacedBy: Option<TokenId>)

  /** How far a transaction has come. */
  datatype Phase =
    | Issuing(newId: TokenId, row: Token)
    | Selected(token: TokenId, now: nat)
    | Inserted(token: TokenId, now: nat, newId: TokenId, row: Token)
    | Revoking(token: TokenId, now: nat, newId: TokenId, row: Token)

  /** Committed rows, running transactions, row locks, the id counter, and a record of the committed logins. */
  datatype State = State(
    tokens: map<TokenId, Token>,
    running: map<TxnId, Phase>,
    locks: map<TokenId, TxnId>,
    nextId: TokenId,
    initial: set<TokenId>)

  const EMPTY := State(map[], map[], map[], 0, {})

  datatype Action =
    | LoginInsert(txn: TxnId, owner: Owner, expires: nat)
    | Select(txn: TxnId, token: TokenId, owner: Owner, now: nat, locking: bool)
    | InsertReplacement(txn: TxnId, expires: nat)
    | ConditionalUpdate(txn: TxnId)
    | Commit(txn: TxnId)
    | Stop(txn: TxnId)

  // ----- steps -----

  predicate Free(s: State, token: TokenId, txn: TxnId) {
    token !in s.locks || s.locks[token] == txn
  }

  /** Rollback: pending rows vanish, locks are released. */
  function EndTxn(s: State, txn: TxnId): (r: State)
    ensures r.tokens == s.tokens && r.nextId == s.nextId && r.initial == s.initial && r.running == s.running - {txn}
  {
    s.(running := s.running - {txn}, locks := map t | t in s.locks && s.locks[t] != txn :: s.locks[t])
  }

  /** `_issue_token_pair` */
  function DoLoginInsert(s: State, txn: TxnId, owner: Owner, expires: nat): State {
    if txn in s.running then s
    else s.(running := s.running[txn := Issuing(s.nextId, Token(owner, expires, None, None))], nextId := s.nextId + 1)
  }

  /** `get_for_rotation` and the checks behind it; a locked row makes the reader wait, a stale one makes it reject. */
  function DoSelect(s: State, txn: TxnId, token: TokenId, owner: Owner, now: nat, locking: bool): State {
    if txn in s.running || token !in s.tokens || (locking && !Free(s, token, txn)) then s
    else
      var row := s.tokens[token];
      if row.owner != owner || row.revokedAt.Some? || row.expires <= now then s
      else s.(running := s.running[txn := Selected(token, now)], locks := if locking then s.locks[token := txn] else s.locks)
  }

  /** `create` of the replacement, for the same company and user. */
  function DoInsert(s: State, txn: TxnId, expires: nat): State {
    if txn !in s.running || !s.running[txn].Selected? || s.running[txn].token !in s.tokens then s
    else
      var p := s.running[txn];
      s.(running := s.running[txn := Inserted(p.token, p.now, s.nextId, Token(s.tokens[p.token].owner, expires, None, None))],
         nextId := s.nextId + 1)
  }

  /** `revoke`: waits for the row, then looks again whether it is unrevoked; if not, the transaction is rolled back. */
  function DoUpdate(s: State, txn: TxnId): State {
    if txn !in s.running || !s.running[txn].Inserted? then s
    else
      var p := s.running[txn];
      if !Free(s, p.token, txn) then s
      else if p.token !in s.tokens || s.tokens[p.token].revokedAt.Some? then EndTxn(s, txn)
      else s.(running := s.running[txn := Revoking(p.token, p.now, p.newId, p.row)], locks := s.locks[p.token := txn])
  }

  function DoCommit(s: State, txn: TxnId): State {
    if txn !in s.running then s
    else match s.running[txn]
      case Issuing(newId, row) =>
        EndTxn(s, txn).(tokens := s.tokens[newId := row], initial := s.initial + {newId})
      case Revoking(token, now, newId, row) =>
        if token !in s.tokens then s
        else EndTxn(s, txn).(tokens :=
          s.tokens[newId := row][token := s.tokens[token].(revokedAt := Some(now), replacedBy := Some(newId))])
      case _ => s
  }

  function Step(s: State, a: Action): State {
    match a
    case LoginInsert(txn, owner, expires) => DoLoginInsert(s, txn, owner, expires)
    case Select(txn, token, owner, now, locking) => DoSelect(s, txn, token, owner, now, locking)
    case InsertReplacement(txn, expires) => DoInsert(s, txn, expires)
    case ConditionalUpdate(txn) => DoUpdate(s, txn)
    case Commit(txn) => DoCommit(s, txn)
    case Stop(txn) => EndTxn(s, txn)
  }

  function Run(actions: seq<Action>): State {
    if actions == [] then EMPTY else Step(Run(actions[..|actions| - 1]), actions[|actions| - 1])
  }

  // ----- the invariant -----

  type Tokens = map<TokenId, Token>

  /** A token is revoked exactly when it is replaced, by a later token of the same owner. */
  ghost predicate RowsInOrder(tokens: Tokens) {
    forall t | t in tokens ::
      && (tokens[t].revokedAt.Some? <==> tokens[t].replacedBy.Some?)
      && (tokens[t].replacedBy.Some? ==>
            var r := tokens[t].replacedBy.value;
            r in tokens && t < r && tokens[r].owner == tokens[t].owner)
  }

  /** No token replaces two, and those of a login replace none. */
  ghost predicate OnePredecessor(tokens: Tokens, initial: set<TokenId>) {
    && (forall t, u | t in tokens && u in tokens && t != u && tokens[t].replacedBy.Some? ::
          tokens[t].replacedBy != tokens[u].replacedBy)
    && (forall t, i | t in tokens && i in initial :: tokens[t].replacedBy != Some(i))
    && initial <= tokens.Keys
  }

  /** Every token that no login issued replaces one. */
  ghost predicate HasOrigin(tokens: Tokens, initial: set<TokenId>) {
    forall r | r in tokens && r !in initial :: exists t :: t in tokens && tokens[t].replacedBy == Some(r)
  }

  ghost predicate ReplacesNone(tokens: Tokens, id: TokenId) {
    forall t | t in tokens :: tokens[t].replacedBy != Some(id)
  }

  ghost predicate IdsUsed(tokens: Tokens, nextId: TokenId) {
    forall t | t in tokens :: t < nextId
  }

  function NewIdOf(p: Phase): Option<TokenId> {
    if p.Selected? then None else Some(p.newId)
  }

  /** Pending rows have ids of their own and are new; a transaction about to revoke holds the lock of a live token. */
  ghost predicate TxnsInOrder(s: State) {
    && (forall x | x in s.running :: TxnInOrder(s, x, s.running[x]))
    && (forall x, y | x in s.running && y in s.running && x != y && NewIdOf(s.running[x]).Some? ::
          NewIdOf(s.running[x]) != NewIdOf(s.running[y]))
  }

  ghost predicate TxnInOrder(s: State, x: TxnId, p: Phase) {
    && (!p.Selected? ==>
          p.newId < s.nextId && p.newId !in s.tokens && p.row.revokedAt.None? && p.row.replacedBy.None?)
    && (!p.Issuing? ==> p.token in s.tokens)
    && (p.Inserted? || p.Revoking? ==> p.token < p.newId && p.row.owner == s.tokens[p.token].owner)
    && (p.Revoking? ==> p.token in s.locks && s.locks[p.token] == x && s.tokens[p.token].revokedAt.None?)
  }

  ghost function Live(tokens: map<TokenId, Token>): set<TokenId> {
    set t | t in tokens && tokens[t].revokedAt.None?
  }

  ghost predicate Inv(s: State) {
    && RowsInOrder(s.tokens) && OnePredecessor(s.tokens, s.initial) && HasOrigin(s.tokens, s.initial)
    && IdsUsed(s.tokens, s.nextId) && TxnsInOrder(s) && |Live(s.tokens)| == |s.initial|
  }

  /** Rolling back, or going on to a phase without effect on the rows, changes nothing that was committed. */
  lemma EndKeepsInv(s: State, txn: TxnId)
    requires Inv(s)
    ensures Inv(EndTxn(s, txn))
  {
    hide RowsInOrder, OnePredecessor, HasOrigin, IdsUsed, Live;
    var s' := EndTxn(s, txn);
    forall x | x in s'.running ensures TxnInOrder(s', x, s'.running[x]) {
      assert TxnInOrder(s, x, s.running[x]);
    }
  }

  lemma PhaseKeepsInv(s: State, txn: TxnId, p: Phase, locks: map<TokenId, TxnId>, nextId: TokenId)
    requires Inv(s) && s.nextId <= nextId
    requires var s' := s.(running := s.running[txn := p], locks := locks, nextId := nextId);
      && TxnInOrder(s', txn, p)
      && (forall x | x in s.running && x != txn && NewIdOf(p).Some? :: NewIdOf(s.running[x]) != NewIdOf(p))
      && (forall t | t in s.locks && s.locks[t] != txn :: t in locks && locks[t] == s.locks[t])
    ensures Inv(s.(running := s.running[txn := p], locks := locks, nextId := nextId))
  {
    hide RowsInOrder, OnePredecessor, HasOrigin, Live;
    var s' := s.(running := s.running[txn := p], locks := locks, nextId := nextId);
    forall x | x in s'.running ensures TxnInOrder(s', x, s'.running[x]) {
      if x != txn { assert TxnInOrder(s, x, s.running[x]); }
    }
  }

  lemma NewRowKeepsOrder(tokens: Tokens, id: TokenId, row: Token)
    requires RowsInOrder(tokens) && id !in tokens && row.revokedAt.None? && row.replacedBy.None?
    ensures RowsInOrder(tokens[id := row])
    ensures ReplacesNone(tokens, id) && ReplacesNone(tokens[id := row], id)
  {
  }

  lemma NewRowKeepsPredecessor(tokens: Tokens, initial: set<TokenId>, id: TokenId, row: Token)
    requires OnePredecessor(tokens, initial) && id !in tokens && row.replacedBy.None?
    requires ReplacesNone(tokens, id)
    ensures OnePredecessor(tokens[id := row], initial) && OnePredecessor(tokens[id := row], initial + {id})
  {
  }

  lemma LinkKeepsOrder(tokens: Tokens, t: TokenId, id: TokenId, now: nat)
    requires RowsInOrder(tokens) && t in tokens && id in tokens && t < id && tokens[t].owner == tokens[id].owner
    ensures RowsInOrder(tokens[t := tokens[t].(revokedAt := Some(now), replacedBy := Some(id))])
  {
  }

  lemma LinkKeepsPredecessor(tokens: Tokens, initial: set<TokenId>, t: TokenId, id: TokenId, now: nat)
    requires OnePredecessor(tokens, initial) && t in tokens && id !in initial
    requires ReplacesNone(tokens, id)
    ensures OnePredecessor(tokens[t := tokens[t].(revokedAt := Some(now), replacedBy := Some(id))], initial)
  {
  }

  lemma IssueKeepsRows(s: State, txn: TxnId)
    requires Inv(s) && txn in s.running && s.running[txn].Issuing?
    ensures var s' := DoCommit(s, txn);
      RowsInOrder(s'.tokens) && OnePredecessor(s'.tokens, s'.initial) && IdsUsed(s'.tokens, s'.nextId)
  {
    hide HasOrigin, Live, EndTxn, RowsInOrder, OnePredecessor;
    var p := s.running[txn];
    assert TxnInOrder(s, txn, p);
    NewRowKeepsOrder(s.tokens, p.newId, p.row);
    NewRowKeepsPredecessor(s.tokens, s.initial, p.newId, p.row);
  }

  lemma IssueKeepsOrigin(s: State, txn: TxnId)
    requires Inv(s) && txn in s.running && s.running[txn].Issuing?
    ensures HasOrigin(DoCommit(s, txn).tokens, DoCommit(s, txn).initial)
  {
    hide OnePredecessor, RowsInOrder, Live, EndTxn;
    var s' := DoCommit(s, txn);
    assert TxnInOrder(s, txn, s.running[txn]);
    forall r | r in s'.tokens && r !in s'.initial ensures exists t :: t in s'.tokens && s'.tokens[t].replacedBy == Some(r) {
      var t :| t in s.tokens && s.tokens[t].replacedBy == Some(r);
      assert s'.tokens[t].replacedBy == Some(r);
    }
  }

  lemma IssueKeepsInv(s: State, txn: TxnId)
    requires Inv(s) && txn in s.running && s.running[txn].Issuing?
    ensures Inv(DoCommit(s, txn))
  {
    hide RowsInOrder, HasOrigin, EndTxn;
    var p := s.running[txn];
    var s' := DoCommit(s, txn);
    assert TxnInOrder(s, txn, p);
    IssueKeepsRows(s, txn);
    IssueKeepsOrigin(s, txn);
    CommitKeepsTxns(s, txn, s');
    assert Live(s'.tokens) == Live(s.tokens) + {p.newId};
    assert p.newId !in Live(s.tokens) && p.newId !in s.initial;
  }

  /** The other transactions do not notice a commit: their pending rows are new, and the locks they hold are theirs. */
  lemma CommitKeepsTxns(s: State, txn: TxnId, s': State)
    requires TxnsInOrder(s) && txn in s.running && !s.running[txn].Selected? && !s.running[txn].Inserted?
    requires s' == DoCommit(s, txn)
    ensures TxnsInOrder(s')
  {
    var p := s.running[txn];
    assert TxnInOrder(s, txn, p);
    forall x | x in s'.running ensures TxnInOrder(s', x, s'.running[x]) {
      assert TxnInOrder(s, x, s.running[x]);
    }
  }

  lemma RotationKeepsRows(s: State, txn: TxnId)
    requires Inv(s) && txn in s.running && s.running[txn].Revoking?
    ensures var s' := DoCommit(s, txn);
      RowsInOrder(s'.tokens) && OnePredecessor(s'.tokens, s'.initial) && IdsUsed(s'.tokens, s'.nextId)
  {
    hide HasOrigin, Live, EndTxn, RowsInOrder, OnePredecessor;
    var p := s.running[txn];
    assert TxnInOrder(s, txn, p);
    var tokens1 := s.tokens[p.newId := p.row];
    NewRowKeepsOrder(s.tokens, p.newId, p.row);
    NewRowKeepsPredecessor(s.tokens, s.initial, p.newId, p.row);
    InitialAreRows(s);
    LinkKeepsOrder(tokens1, p.token, p.newId, p.now);
    LinkKeepsPredecessor(tokens1, s.initial, p.token, p.newId, p.now);
  }

  lemma InitialAreRows(s: State)
    requires Inv(s)
    ensures s.initial <= s.tokens.Keys
  {
  }

  lemma RotationKeepsCount(s: State, txn: TxnId)
    requires Inv(s) && txn in s.running && s.running[txn].Revoking?
    ensures |Live(DoCommit(s, txn).tokens)| == |Live(s.tokens)|
  {
    hide RowsInOrder, HasOrigin, OnePredecessor, EndTxn;
    var p := s.running[txn];
    var tokens' := DoCommit(s, txn).tokens;
    assert TxnInOrder(s, txn, p);
    assert Live(tokens') == (Live(s.tokens) - {p.token}) + {p.newId};
    assert p.token in Live(s.tokens) && p.newId !in Live(s.tokens);
  }

  lemma RotationKeepsInv(s: State, txn: TxnId)
    requires Inv(s) && txn in s.running && s.running[txn].Revoking?
    ensures Inv(DoCommit(s, txn))
  {
    hide RowsInOrder, HasOrigin, OnePredecessor, EndTxn, Live;
    assert TxnInOrder(s, txn, s.running[txn]);
    CommitKeepsTxns(s, txn, DoCommit(s, txn));
    RotationKeepsRows(s, txn);
    RotationKeepsOrigin(s, txn);
    RotationKeepsCount(s, txn);
  }

  lemma RotationKeepsOrigin(s: State, txn: TxnId)
    requires Inv(s) && txn in s.running && s.running[txn].Revoking?
    ensures HasOrigin(DoCommit(s, txn).tokens, DoCommit(s, txn).initial)
  {
    var p := s.running[txn];
    var s' := DoCommit(s, txn);
    assert TxnInOrder(s, txn, p);
    forall r | r in s'.tokens && r !in s'.initial ensures exists t :: t in s'.tokens && s'.tokens[t].replacedBy == Some(r) {
      if r == p.newId {
        assert s'.tokens[p.token].replacedBy == Some(r);
      } else {
        var t :| t in s.tokens && s.tokens[t].replacedBy == Some(r);
        assert t != p.token && s'.tokens[t].replacedBy == Some(r);
      }
    }
  }

  lemma StepKeepsInv(s: State, a: Action)
    requires Inv(s)
    ensures Inv(Step(s, a))
  {
    hide RowsInOrder, OnePredecessor, HasOrigin, Live;
    match a
    case LoginInsert(txn, owner, expires) =>
      if txn !in s.running {
        OthersDiffer(s);
        PhaseKeepsInv(s, txn, Issuing(s.nextId, Token(owner, expires, None, None)), s.locks, s.nextId + 1);
      }
    case Select(txn, token, owner, now, locking) =>
      if Step(s, a) != s {
        PhaseKeepsInv(s, txn, Selected(token, now), if locking then s.locks[token := txn] else s.locks, s.nextId);
      }
    case InsertReplacement(txn, expires) =>
      if Step(s, a) != s {
        var p := s.running[txn];
        OthersDiffer(s);
        PhaseKeepsInv(s, txn, Inserted(p.token, p.now, s.nextId, Token(s.tokens[p.token].owner, expires, None, None)), s.locks, s.nextId + 1);
      }
    case ConditionalUpdate(txn) =>
      if Step(s, a) != s {
        EndKeepsInv(s, txn);
        var p := s.running[txn];
        if Step(s, a) != EndTxn(s, txn) {
          assert TxnInOrder(s, txn, p);
          PhaseKeepsInv(s, txn, Revoking(p.token, p.now, p.newId, p.row), s.locks[p.token := txn], s.nextId);
        }
      }
    case Commit(txn) =>
      if Step(s, a) != s {
        if s.running[txn].Issuing? {
          IssueKeepsInv(s, txn);
        } else {
          RotationKeepsInv(s, txn);
        }
      }
    case Stop(txn) => EndKeepsInv(s, txn);
  }

  /** Ids from the counter are new to every row, committed or pending. */
  lemma OthersDiffer(s: State)
    requires Inv(s)
    ensures s.nextId !in s.tokens
    ensures forall x | x in s.running :: NewIdOf(s.running[x]) != Some(s.nextId)
    ensures forall t | t in s.tokens :: t < s.nextId
  {
    forall x | x in s.running ensures NewIdOf(s.running[x]) != Some(s.nextId) {
      assert TxnInOrder(s, x, s.running[x]);
    }
  }

  /** The invariant holds after every interleaving. */
  lemma {:induction false} RunKeepsInv(actions: seq<Action>)
    ensures Inv(Run(actions))
  {
    hide Inv;
    if actions != [] {
      RunKeepsInv(actions[..|actions| - 1]);
      StepKeepsInv(Run(actions[..|actions| - 1]), actions[|actions| - 1]);
    } else {
      EmptyIsInOrder();
    }
  }

  lemma EmptyIsInOrder()
    ensures Inv(EMPTY)
  {
  }

  // ----- what the invariant says about tokens -----

  /** There are as many live tokens as logins were committed. */
  lemma LiveTokensAreConserved(actions: seq<Action>)
    ensures |Live(Run(actions).tokens)| == |Run(actions).initial|
  {
    RunKeepsInv(actions);
  }

  /** Committed history is never rewritten: a token that is revoked keeps its successor for good. */
  lemma ReplacedOnce(s: State, a: Action, t: TokenId)
    requires Inv(s) && t in s.tokens
    ensures t in Step(s, a).tokens && Step(s, a).tokens[t].owner == s.tokens[t].owner
    ensures s.tokens[t].revokedAt.Some? ==> Step(s, a).tokens[t] == s.tokens[t]
  {
    hide RowsInOrder, OnePredecessor, HasOrigin, Live, IdsUsed, TxnsInOrder, EndTxn;
    if a.Commit? && a.txn in s.running {
      assert TxnsInOrder(s);
      TxnOf(s, a.txn);
    }
  }

  /** The `n`-th successor of a token. */
  function Successor(tokens: map<TokenId, Token>, t: TokenId, n: nat): Option<TokenId>
    decreases n
  {
    if t !in tokens then None
    else if n == 0 then Some(t)
    else match tokens[t].replacedBy
      case None => None
      case Some(r) => Successor(tokens, r, n - 1)
  }

  /** Following the successors of a token leads to a live token of the same owner, and to no other. */
  lemma {:induction false} ChainEndsAlive(s: State, t: TokenId) returns (n: nat, end: TokenId)
    requires Inv(s) && t in s.tokens
    ensures Successor(s.tokens, t, n) == Some(end) && end in Live(s.tokens) && s.tokens[end].owner == s.tokens[t].owner
    ensures forall k: nat, u :: Successor(s.tokens, t, k) == Some(u) && u in Live(s.tokens) ==> u == end
    ensures t <= end
    decreases s.nextId - t
  {
    if t in Live(s.tokens) {
      n, end := 0, t;
      assert Successor(s.tokens, t, 0) == Some(t);
    } else {
      var r := s.tokens[t].replacedBy.value;
      assert r < s.nextId;
      n, end := ChainEndsAlive(s, r);
      n := n + 1;
      forall k: nat, u | Successor(s.tokens, t, k) == Some(u) && u in Live(s.tokens) ensures u == end {
        if k > 0 {
          assert Successor(s.tokens, r, k - 1) == Some(u);
        }
      }
    }
  }

  lemma {:induction false} LastLink(tokens: map<TokenId, Token>, t: TokenId, n: nat)
    requires Successor(tokens, t, n + 1).Some?
    ensures Successor(tokens, t, n).Some? && Successor(tokens, t, n).value in tokens
    ensures tokens[Successor(tokens, t, n).value].replacedBy == Successor(tokens, t, n + 1)
    decreases n
  {
    var r := tokens[t].replacedBy.value;
    if n == 0 {
      assert Successor(tokens, t, 0) == Some(t) && Successor(tokens, r, 0) == Some(r);
    } else {
      LastLink(tokens, r, n - 1);
    }
  }

  /** Chains of different logins never meet. */
  lemma {:induction false} ChainsAreDisjoint(s: State, i: TokenId, j: TokenId, m: nat, n: nat)
    requires OnePredecessor(s.tokens, s.initial) && i in s.initial && j in s.initial
    requires Successor(s.tokens, i, m).Some? && Successor(s.tokens, i, m) == Successor(s.tokens, j, n)
    ensures i == j && m == n
    decreases m + n
  {
    assert Successor(s.tokens, i, 0) == Some(i) && Successor(s.tokens, j, 0) == Some(j);
    if m > 0 {
      LastLink(s.tokens, i, m - 1);
    }
    if n > 0 {
      LastLink(s.tokens, j, n - 1);
    }
    if m == 0 || n == 0 {
    } else {
      ChainsAreDisjoint(s, i, j, m - 1, n - 1);
    }
  }

  /** Every token descends from a login. */
  lemma {:induction false} EveryTokenHasALogin(s: State, r: TokenId) returns (i: TokenId, n: nat)
    requires Inv(s) && r in s.tokens
    ensures i in s.initial && Successor(s.tokens, i, n) == Some(r)
    decreases r
  {
    if r in s.initial {
      i, n := r, 0;
    } else {
      var t :| t in s.tokens && s.tokens[t].replacedBy == Some(r);
      i, n := EveryTokenHasALogin(s, t);
      OneFurther(s.tokens, i, n);
      assert Successor(s.tokens, r, 0) == Some(r);
      n := n + 1;
    }
  }

  lemma {:induction false} OneFurther(tokens: map<TokenId, Token>, t: TokenId, n: nat)
    requires Successor(tokens, t, n).Some?
    ensures Successor(tokens, t, n).value in tokens
    ensures Successor(tokens, t, n + 1) == match tokens[Successor(tokens, t, n).value].replacedBy
      case None => None
      case Some(r) => Successor(tokens, r, 0)
    decreases n
  {
    if n == 0 {
    } else {
      OneFurther(tokens, tokens[t].replacedBy.value, n - 1);
    }
  }

  // ----- what the lock of the first read is worth -----

  ghost predicate LocksGuard(s: State) {
    forall x | x in s.running && (s.running[x].Selected? || s.running[x].Inserted?) ::
      var t := s.running[x].token; t in s.locks && s.locks[t] == x && t in s.tokens && s.tokens[t].revokedAt.None?
  }

  /** If every first read locks, the conditional UPDATE always finds its token unrevoked. */
  lemma {:induction false} LockedUpdateSucceeds(actions: seq<Action>, txn: TxnId)
    requires forall i | 0 <= i < |actions| :: actions[i].Select? ==> actions[i].locking
    ensures LocksGuard(Run(actions))
    ensures txn in Run(actions).running && Run(actions).running[txn].Inserted? ==>
      txn in DoUpdate(Run(actions), txn).running && DoUpdate(Run(actions), txn).running[txn].Revoking?
  {
    if actions == [] {
    } else {
      var n := |actions| - 1;
      var s := Run(actions[..n]);
      forall i | 0 <= i < n ensures actions[..n][i].Select? ==> actions[..n][i].locking {
        assert actions[..n][i] == actions[i];
      }
      LockedUpdateSucceeds(actions[..n], txn);
      RunKeepsInv(actions[..n]);
      StepKeepsGuard(s, actions[n]);
    }
  }

  lemma StepKeepsGuard(s: State, a: Action)
    requires Inv(s) && LocksGuard(s) && (a.Select? ==> a.locking)
    ensures LocksGuard(Step(s, a))
  {
    hide RowsInOrder, OnePredecessor, HasOrigin, Live, IdsUsed, TxnsInOrder, EndTxn;
    match a
    case Commit(txn) =>
      if txn in s.running {
        assert TxnsInOrder(s);
        TxnOf(s, txn);
        EndKeepsGuard(s, txn);
        CommitKeepsGuard(s, txn);
      }
    case Stop(txn) => EndKeepsGuard(s, txn);
    case ConditionalUpdate(txn) =>
      if txn in s.running {
        EndKeepsGuard(s, txn);
      }
    case LoginInsert(_, _, _) =>
    case Select(_, _, _, _, _) =>
    case InsertReplacement(_, _) =>
  }

  lemma TxnOf(s: State, x: TxnId)
    requires TxnsInOrder(s) && x in s.running
    ensures TxnInOrder(s, x, s.running[x])
  {
  }

  lemma EndKeepsGuard(s: State, txn: TxnId)
    requires LocksGuard(s)
    ensures LocksGuard(EndTxn(s, txn))
  {
  }

  lemma CommitKeepsGuard(s: State, txn: TxnId)
    requires LocksGuard(s) && LocksGuard(EndTxn(s, txn)) && txn in s.running && TxnInOrder(s, txn, s.running[txn])
    ensures LocksGuard(DoCommit(s, txn))
  {
  }

  // ----- the service -----

  /** One session of `AuthenticationService`; other sessions run between any two of its statements, not inside one. */
  class AuthenticationService {
    var db: State

    constructor ()
      ensures db == EMPTY
    {
      db := EMPTY;
    }

    /** `RefreshTokenRepository.revoke`: the conditional UPDATE, and whether it found the row. */
    method Revoke(txn: TxnId) returns (revoked: bool)
      requires txn in db.running && db.running[txn].Inserted? && Free(db, db.running[txn].token, txn)
      modifies this
      ensures revoked <==> db.running == old(db.running)[txn := Revoking(
        old(db).running[txn].token, old(db).running[txn].now, old(db).running[txn].newId, old(db).running[txn].row)]
      ensures db == Step(old(db), ConditionalUpdate(txn))
    {
      var p := db.running[txn];
      revoked := p.token in db.tokens && db.tokens[p.token].revokedAt.None?;
      if revoked {
        db := db.(running := db.running[txn := Revoking(p.token, p.now, p.newId, p.row)], locks := db.locks[p.token := txn]);
      } else {
        db := EndTxn(db, txn);
      }
    }

    /** `login`, undisturbed. */
    method Login(txn: TxnId, owner: Owner, expires: nat, accepted: bool) returns (issued: Option<TokenId>)
      requires Inv(db) && txn !in db.running
      modifies this
      ensures Inv(db)
      ensures issued.Some? <==> accepted
      ensures !accepted ==> db == old(db)
      ensures accepted ==> db == Step(Step(old(db), LoginInsert(txn, owner, expires)), Commit(txn))
      ensures accepted ==> issued.value in db.tokens && db.tokens[issued.value] == Token(owner, expires, None, None)
    {
      hide Inv;
      if !accepted {
        return None;
      }
      OthersDiffer(db);
      StepKeepsInv(db, LoginInsert(txn, owner, expires));
      var newId := db.nextId;
      db := DoLoginInsert(db, txn, owner, expires);
      StepKeepsInv(db, Commit(txn));
      db := DoCommit(db, txn);
      return Some(newId);
    }

    /**
     * `refresh`, undisturbed: a live token that is not expired is exchanged, once; with any other token, and when the
     * company or user is not in order, nothing happens.
     */
    method Refresh(txn: TxnId, token: TokenId, owner: Owner, now: nat, expires: nat, accountInOrder: bool)
      returns (issued: Option<TokenId>)
      requires Inv(db) && txn !in db.running && txn !in db.locks.Values && token !in db.locks
      modifies this
      ensures Inv(db)
      ensures issued.Some? <==>
        && token in old(db).tokens && old(db).tokens[token].owner == owner && old(db).tokens[token].revokedAt.None?
        && now < old(db).tokens[token].expires && accountInOrder
      ensures issued.None? ==> db.tokens == old(db).tokens && db.running == old(db).running && db.locks == old(db).locks
      ensures issued.Some? ==>
        && issued.value !in old(db).tokens
        && db.tokens == old(db).tokens[issued.value := Token(owner, expires, None, None)]
             [token := old(db).tokens[token].(revokedAt := Some(now), replacedBy := issued)]
    {
      hide Inv;
      var start := db;
      OthersDiffer(db);
      StepKeepsInv(db, Select(txn, token, owner, now, true));
      db := DoSelect(db, txn, token, owner, now, true);
      if txn !in db.running {
        return None;
      }
      if !accountInOrder {
        StepKeepsInv(db, Stop(txn));
        db := EndTxn(db, txn);
        assert db.running == start.running && db.locks == start.locks;
        return None;
      }
      StepKeepsInv(db, InsertReplacement(txn, expires));
      var newId := db.nextId;
      db := DoInsert(db, txn, expires);
      StepKeepsInv(db, ConditionalUpdate(txn));
      var revoked := Revoke(txn);
      StepKeepsInv(db, Commit(txn));
      db := DoCommit(db, txn);
      return Some(newId);
    }
  }
}
