/**
 * `backend/app/rag/retrieval.py`: which hits of a vector search reach the caller.
 *
 * `search_trusted` is proved to return the first `top_k` admissible hits, for any list of hits. Together with module
 * `Knowledge` this makes a search right in every reachable state, stale records and late answers included.
 */
module Retrieval {
  import opened Common
  import opened Knowledge

  /** What is left of a hit once its `dict` is read; a part is missing where reading it raises. */
  datatype Hit = Hit(company: Option<string>, document: Option<DocId>, version: Option<int>, body: Option<HitBody>)

  datatype HitBody = HitBody(metadata: Metadata, chunkIndex: int, text: string)

  datatype ChunkResult = ChunkResult(document: DocId, version: int, body: HitBody)

  datatype Query = Query(company: string, departments: seq<Department>, scopes: seq<AccessScope>, topK: nat)

  datatype RetrievalError = TenantScopeInvalid | AccessRequired | OtherDepartment

  // ----- trusted_query -----

  datatype Actor = Company | DepartmentManager(own: Option<Department>) | Employee

  datatype SearchRequest = SearchRequest(department: Option<Department>, topK: Option<nat>)

  const ALL_DEPARTMENTS: seq<Department> := [SHARED, CUSTOMER_SUPPORT, HR, IT, FINANCE, PROCUREMENT]
  const COMPANY_ACCESS_SCOPES: seq<AccessScope> :=
    [ALL_AUTHENTICATED, EMPLOYEES, DEPARTMENT_MANAGERS, COMPANY_ACCOUNT, INTERNAL_SYSTEM]
  const MANAGER_ACCESS_SCOPES: seq<AccessScope> := [ALL_AUTHENTICATED, EMPLOYEES, DEPARTMENT_MANAGERS]

  /** `own` is missing where `trusted_manager_department` raises. A `top_k` of zero counts as absent. */
  function TrustedQuery(company: string, actor: Actor, request: SearchRequest, ragTopK: nat): Result<Query, RetrievalError> {
    var wanted := if request.topK.Some? && request.topK.value != 0 then request.topK.value else ragTopK;
    var topK := if wanted < ragTopK then wanted else ragTopK;
    match actor
    case Company =>
      var departments := match request.department
        case None => ALL_DEPARTMENTS
        case Some(d) => if d == SHARED then [SHARED] else [d, SHARED];
      Ok(Query(company, departments, COMPANY_ACCESS_SCOPES, topK))
    case DepartmentManager(own) =>
      if own.None? then Err(AccessRequired)
      else if request.department !in {None, own, Some(SHARED)} then Err(OtherDepartment)
      else Ok(Query(company, [own.value, SHARED], MANAGER_ACCESS_SCOPES, topK))
    case Employee => Err(AccessRequired)
  }

  /** Who may ask, and exactly which departments and access scopes the query then covers. */
  lemma QueryScope(company: string, actor: Actor, request: SearchRequest, ragTopK: nat)
    ensures var r := TrustedQuery(company, actor, request, ragTopK);
      && (r.Ok? <==>
            || actor.Company?
            || (actor.DepartmentManager? && actor.own.Some? && request.department in {None, actor.own, Some(SHARED)}))
      && (r.Ok? ==>
            && r.value.company == company
            && r.value.topK == (match request.topK
                                case None => ragTopK
                                case Some(n) => if 0 < n <= ragTopK then n else ragTopK)
            && (forall d :: d in r.value.departments <==>
                  d == SHARED || (if actor.Company? then request.department in {None, Some(d)} else actor.own == Some(d)))
            && (forall a :: a in r.value.scopes <==> actor.Company? || a !in {COMPANY_ACCOUNT, INTERNAL_SYSTEM}))
  {
    forall a: AccessScope ensures a in COMPANY_ACCESS_SCOPES && (a in MANAGER_ACCESS_SCOPES <==> a !in {COMPANY_ACCOUNT, INTERNAL_SYSTEM}) {
      match a
      case ALL_AUTHENTICATED => assert COMPANY_ACCESS_SCOPES[0] == a && MANAGER_ACCESS_SCOPES[0] == a;
      case EMPLOYEES => assert COMPANY_ACCESS_SCOPES[1] == a && MANAGER_ACCESS_SCOPES[1] == a;
      case DEPARTMENT_MANAGERS => assert COMPANY_ACCESS_SCOPES[2] == a && MANAGER_ACCESS_SCOPES[2] == a;
      case COMPANY_ACCOUNT => assert COMPANY_ACCESS_SCOPES[3] == a;
      case INTERNAL_SYSTEM => assert COMPANY_ACCESS_SCOPES[4] == a;
    }
    forall d: Department ensures d in ALL_DEPARTMENTS {
      match d
      case SHARED => assert ALL_DEPARTMENTS[0] == d;
      case CUSTOMER_SUPPORT => assert ALL_DEPARTMENTS[1] == d;
      case HR => assert ALL_DEPARTMENTS[2] == d;
      case IT => assert ALL_DEPARTMENTS[3] == d;
      case FINANCE => assert ALL_DEPARTMENTS[4] == d;
      case PROCUREMENT => assert ALL_DEPARTMENTS[5] == d;
    }
  }

  // ----- search_trusted -----

  predicate Searchable(doc: Document) {
    doc.isActive && doc.status == ACTIVE && doc.ingestion == COMPLETED
  }

  /** `active_by_ids` */
  function ActiveByIds(docs: map<DocId, Document>, ids: set<DocId>): map<DocId, Document> {
    map d | d in ids && d in docs && Searchable(docs[d]) :: docs[d]
  }

  predicate SharesDepartment(a: seq<Department>, b: seq<Department>) {
    exists d | d in a :: d in b
  }

  /** A hit the caller may see: of this tenant, of a live row at the version of the hit, well formed, and allowed. */
  predicate Admissible(docs: map<DocId, Document>, query: Query, hit: Hit) {
    && hit.company == Some(query.company)
    && hit.document.Some? && hit.document.value in docs
    && Searchable(docs[hit.document.value])
    && hit.version == Some(docs[hit.document.value].version)
    && hit.body.Some?
    && hit.body.value.metadata.access in query.scopes
    && SharesDepartment(hit.body.value.metadata.departments, query.departments)
  }

  function ResultOf(hit: Hit): ChunkResult
    requires hit.document.Some? && hit.version.Some? && hit.body.Some?
  {
    ChunkResult(hit.document.value, hit.version.value, hit.body.value)
  }

  /** The hits the warning in the log counts. */
  predicate Malformed(docs: map<DocId, Document>, query: Query, hit: Hit) {
    || hit.company != Some(query.company)
    || hit.document.None?
    || (&& hit.document.value in docs
        && Searchable(docs[hit.document.value])
        && (|| hit.version.None?
            || (hit.version.value == docs[hit.document.value].version && hit.body.None?)))
  }

  function AllAdmissible(docs: map<DocId, Document>, query: Query, hits: seq<Hit>): (r: seq<ChunkResult>) {
    if hits == [] then []
    else
      var last := hits[|hits| - 1];
      AllAdmissible(docs, query, hits[..|hits| - 1]) + if Admissible(docs, query, last) then [ResultOf(last)] else []
  }

  function CountMalformed(docs: map<DocId, Document>, query: Query, hits: seq<Hit>): nat {
    if hits == [] then 0
    else CountMalformed(docs, query, hits[..|hits| - 1]) + if Malformed(docs, query, hits[|hits| - 1]) then 1 else 0
  }

  /** `search_trusted`, given what the provider answered and the rows at the time they are read. */
  method SearchTrusted(company: string, query: Query, hits: seq<Hit>, docs: map<DocId, Document>)
    returns (r: Result<seq<ChunkResult>, RetrievalError>, malformed: nat)
    ensures query.company != company ==> r == Err(TenantScopeInvalid)
    ensures query.company == company ==> r == Ok(Take(AllAdmissible(docs, query, hits), query.topK))
    ensures query.company == company ==> Answers(docs, query, hits, r.value)
    ensures query.company == company ==> malformed == CountMalformed(docs, query, hits)
  {
    AllAnswers(docs, query, hits);
    hide Answers, AllAdmissible, CountMalformed, ActiveByIds, Parsed;
    malformed := 0;
    if query.company != company {
      return Err(TenantScopeInvalid), malformed;
    }
    var parsed: seq<Hit>;
    parsed, malformed := ParseHits(query, hits);
    ParsedIsOk(query, hits);
    var active := ActiveByIds(docs, set h | h in parsed :: h.document.value);
    ParsedKeepsResults(docs, query, hits);
    var results, more := CollectResults(query, parsed, docs, active);
    return Ok(Take(results, query.topK)), malformed + more;
  }

  /** The first loop: hits of this tenant whose document id can be read. */
  method ParseHits(query: Query, hits: seq<Hit>) returns (parsed: seq<Hit>, malformed: nat)
    ensures parsed == Parsed(query, hits) && malformed == |hits| - |parsed|
  {
    parsed, malformed := [], 0;
    var i := 0;
    while i < |hits|
      invariant 0 <= i <= |hits|
      invariant parsed == Parsed(query, hits[..i])
      invariant malformed == i - |parsed|
    {
      assert hits[..i + 1][..i] == hits[..i];
      var hit := hits[i];
      if hit.company != Some(query.company) || hit.document.None? {
        malformed := malformed + 1;
      } else {
        parsed := parsed + [hit];
      }
      i := i + 1;
    }
    assert hits[..|hits|] == hits;
  }

  /** The second loop: check each parsed hit against its row and the scopes of the query. */
  method CollectResults(query: Query, parsed: seq<Hit>, ghost docs: map<DocId, Document>, active: map<DocId, Document>)
    returns (results: seq<ChunkResult>, malformed: nat)
    requires forall h | h in parsed :: h.company == Some(query.company) && h.document.Some?
    requires active == ActiveByIds(docs, set h | h in parsed :: h.document.value)
    ensures results == AllAdmissible(docs, query, parsed)
    ensures malformed == CountMalformed(docs, query, parsed)
  {
    hide SharesDepartment;
    results, malformed := [], 0;
    var i := 0;
    while i < |parsed|
      invariant 0 <= i <= |parsed|
      invariant results == AllAdmissible(docs, query, parsed[..i])
      invariant malformed == CountMalformed(docs, query, parsed[..i])
    {
      assert parsed[..i + 1][..i] == parsed[..i];
      var hit := parsed[i];
      assert hit in parsed;
      if hit.document.value in active {
        var document := active[hit.document.value];
        if hit.version.None? {
          malformed := malformed + 1;
        } else if hit.version.value == document.version {
          if hit.body.None? {
            malformed := malformed + 1;
          } else if hit.body.value.metadata.access in query.scopes
                 && SharesDepartment(hit.body.value.metadata.departments, query.departments) {
            results := results + [ResultOf(hit)];
          }
        }
      }
      i := i + 1;
    }
    assert parsed[..|parsed|] == parsed;
  }

  function Parsed(query: Query, hits: seq<Hit>): seq<Hit> {
    if hits == [] then []
    else
      var last := hits[|hits| - 1];
      Parsed(query, hits[..|hits| - 1]) + if last.company == Some(query.company) && last.document.Some? then [last] else []
  }

  lemma {:induction false} ParsedIsOk(query: Query, hits: seq<Hit>)
    ensures forall h | h in Parsed(query, hits) :: h.company == Some(query.company) && h.document.Some?
  {
    if hits == [] {
    } else {
      ParsedIsOk(query, hits[..|hits| - 1]);
    }
  }

  lemma {:induction false} ParsedKeepsResults(docs: map<DocId, Document>, query: Query, hits: seq<Hit>)
    ensures AllAdmissible(docs, query, Parsed(query, hits)) == AllAdmissible(docs, query, hits)
    ensures CountMalformed(docs, query, hits) ==
      |hits| - |Parsed(query, hits)| + CountMalformed(docs, query, Parsed(query, hits))
  {
    if hits == [] {
    } else {
      var front, last := hits[..|hits| - 1], hits[|hits| - 1];
      ParsedKeepsResults(docs, query, front);
      var all := Parsed(query, hits);
      if last.company == Some(query.company) && last.document.Some? {
        assert all[..|all| - 1] == Parsed(query, front) && all[|all| - 1] == last;
      } else {
        assert all == Parsed(query, front);
      }
    }
  }

  // ----- what the results are -----

  /** The results are the admissible hits and no others, each once, in the order of the hits. */
  lemma {:induction false} ResultsAreTheAdmissibleHits(docs: map<DocId, Document>, query: Query, hits: seq<Hit>)
    returns (at: seq<nat>)
    ensures |at| == |AllAdmissible(docs, query, hits)|
    ensures forall i, j | 0 <= i < j < |at| :: at[i] < at[j]
    ensures forall i | 0 <= i < |at| ::
      at[i] < |hits| && Admissible(docs, query, hits[at[i]]) && AllAdmissible(docs, query, hits)[i] == ResultOf(hits[at[i]])
    ensures forall k | 0 <= k < |hits| && Admissible(docs, query, hits[k]) :: k in at
  {
    at := [];
    if hits == [] {
    } else {
      var n := |hits| - 1;
      var front := ResultsAreTheAdmissibleHits(docs, query, hits[..n]);
      at := front + if Admissible(docs, query, hits[n]) then [n] else [];
      forall k | 0 <= k < |hits| && Admissible(docs, query, hits[k]) ensures k in at {
        if k < n {
          assert hits[..n][k] == hits[k];
          assert k in front;
        }
      }
    }
  }

  /** A hit the caller is entitled to see, said of its fields and of the row it names. */
  ghost predicate Entitled(docs: map<DocId, Document>, query: Query, hit: Hit) {
    && hit.company == Some(query.company)
    && hit.document.Some? && hit.version.Some? && hit.body.Some?
    && hit.document.value in docs
    && var row, metadata := docs[hit.document.value], hit.body.value.metadata;
    && row.isActive && row.status == ACTIVE && row.ingestion == COMPLETED && row.version == hit.version.value
    && metadata.access in query.scopes
    && exists d: Department :: d in metadata.departments && d in query.departments
  }

  /** The positions of such hits among the first `k`. */
  ghost function Places(docs: map<DocId, Document>, query: Query, hits: seq<Hit>, k: nat): set<nat>
    requires k <= |hits|
  {
    set j: nat | j < k && Entitled(docs, query, hits[j])
  }

  /** A hit the caller is entitled to stands in the answer behind those before it, unless `top_k` of them precede it. */
  ghost predicate Answers(docs: map<DocId, Document>, query: Query, hits: seq<Hit>, r: seq<ChunkResult>) {
    var found := |Places(docs, query, hits, |hits|)|;
    && |r| == (if query.topK < found then query.topK else found)
    && forall k: nat | k < |hits| && Entitled(docs, query, hits[k]) && |Places(docs, query, hits, k)| < query.topK ::
      var c := |Places(docs, query, hits, k)|;
      c < |r| && r[c] == ChunkResult(hits[k].document.value, hits[k].version.value, hits[k].body.value)
  }

  lemma EntitledIsAdmissible(docs: map<DocId, Document>, query: Query, hit: Hit)
    ensures Entitled(docs, query, hit) <==> Admissible(docs, query, hit)
  {
  }

  lemma {:induction false} PlacesAreCounted(docs: map<DocId, Document>, query: Query, hits: seq<Hit>, k: nat)
    requires k <= |hits|
    ensures |Places(docs, query, hits, k)| == |AllAdmissible(docs, query, hits[..k])|
  {
    hide Entitled, Admissible, Places;
    if k == 0 {
      NoPlaces(docs, query, hits);
    } else {
      PlacesAreCounted(docs, query, hits, k - 1);
      OneMorePlace(docs, query, hits, k - 1);
      EntitledIsAdmissible(docs, query, hits[k - 1]);
      assert hits[..k][..k - 1] == hits[..k - 1];
    }
  }

  lemma NoPlaces(docs: map<DocId, Document>, query: Query, hits: seq<Hit>)
    ensures Places(docs, query, hits, 0) == {}
  {
  }

  lemma OneMorePlace(docs: map<DocId, Document>, query: Query, hits: seq<Hit>, k: nat)
    requires k < |hits|
    ensures |Places(docs, query, hits, k + 1)| ==
      |Places(docs, query, hits, k)| + if Entitled(docs, query, hits[k]) then 1 else 0
  {
    hide Entitled;
    var before := Places(docs, query, hits, k);
    assert Places(docs, query, hits, k + 1) == if Entitled(docs, query, hits[k]) then before + {k} else before;
  }

  lemma {:induction false} FrontIsPrefix(docs: map<DocId, Document>, query: Query, hits: seq<Hit>, k: nat)
    requires k <= |hits|
    ensures AllAdmissible(docs, query, hits[..k]) <= AllAdmissible(docs, query, hits)
    decreases |hits| - k
  {
    hide Admissible;
    if k == |hits| {
      assert hits[..k] == hits;
    } else {
      assert hits[..k + 1][..k] == hits[..k];
      FrontIsPrefix(docs, query, hits, k + 1);
    }
  }

  lemma PlaceOf(docs: map<DocId, Document>, query: Query, hits: seq<Hit>, k: nat)
    requires k < |hits| && Entitled(docs, query, hits[k])
    ensures var c, all := |Places(docs, query, hits, k)|, AllAdmissible(docs, query, hits); c < |all| && all[c] == ResultOf(hits[k])
  {
    hide Entitled, Admissible, Places, ResultOf;
    EntitledIsAdmissible(docs, query, hits[k]);
    PlacesAreCounted(docs, query, hits, k);
    FrontIsPrefix(docs, query, hits, k + 1);
    assert hits[..k + 1][..k] == hits[..k];
  }

  /** The specification of the search is this answer. */
  lemma AllAnswers(docs: map<DocId, Document>, query: Query, hits: seq<Hit>)
    ensures Answers(docs, query, hits, Take(AllAdmissible(docs, query, hits), query.topK))
  {
    hide Admissible, AllAdmissible, Places;
    PlacesAreCounted(docs, query, hits, |hits|);
    assert hits[..|hits|] == hits;
    forall k: nat | k < |hits| && Entitled(docs, query, hits[k])
      ensures var c, all := |Places(docs, query, hits, k)|, AllAdmissible(docs, query, hits); c < |all| && all[c] == ResultOf(hits[k])
    {
      PlaceOf(docs, query, hits, k);
    }
  }

  /** What the index returns for one stored record. */
  function HitOf(r: Record): Hit {
    Hit(Some(r.company), Some(r.document), Some(r.version), Some(HitBody(r.metadata, r.chunkIndex, r.text)))
  }

  /** A result that shows the caller exactly one chunk of a live document, under the document's own access rules. */
  ghost predicate Truthful(env: Environment, docs: map<DocId, Document>, query: Query, r: ChunkResult) {
    && r.document in docs
    && var doc := docs[r.document];
    && Searchable(doc) && r.version == doc.version
    && 0 <= r.body.chunkIndex < |env.Chunks(doc.checksum)|
    && r.body.text == env.Chunks(doc.checksum)[r.body.chunkIndex].text
    && r.body.metadata == doc.metadata
    && doc.metadata.access in query.scopes
    && SharesDepartment(doc.metadata.departments, query.departments)
  }

  /**
   * In every run: whatever records the index finds, be they stale, already deleted, or of a version superseded in the
   * meantime, a result is a chunk of a document that is live when the rows are read, and the caller may see it.
   */
  lemma SearchIsRight(env: Environment, ops: seq<Op>, states: seq<State>, found: nat, read: nat, query: Query, hits: seq<Hit>)
    requires IsRun(env, ops, states) && found <= read < |states|
    requires forall h | h in hits :: exists k | k in states[found].store :: h == HitOf(states[found].store[k])
    ensures forall r | r in Take(AllAdmissible(states[read].docs, query, hits), query.topK) ::
      Truthful(env, states[read].docs, query, r)
  {
    hide IsRun, Admissible, Truthful, Extends, StoreSound;
    StoreAgreesWithRows(env, ops, states, found);
    RunExtends(env, ops, states, found, read);
    var docs := states[read].docs;
    var all := AllAdmissible(docs, query, hits);
    var at := ResultsAreTheAdmissibleHits(docs, query, hits);
    forall r | r in all ensures Truthful(env, docs, query, r) {
      var i :| 0 <= i < |all| && all[i] == r;
      var h := hits[at[i]];
      assert h in hits;
      var k :| k in states[found].store && h == HitOf(states[found].store[k]);
      StoredHitIsTruthful(env, states[found].docs, docs, states[found].store, k, query);
    }
  }

  lemma StoredHitIsTruthful(env: Environment, before: map<DocId, Document>, docs: map<DocId, Document>,
                            store: map<string, Record>, k: string, query: Query)
    requires StoreSound(env, before, store) && Extends(before, docs) && k in store
    requires Admissible(docs, query, HitOf(store[k]))
    ensures Truthful(env, docs, query, ResultOf(HitOf(store[k])))
  {
    hide SharesDepartment, Environment.Chunks;
    assert SoundRecord(env, before, k, store[k]);
  }

  /** A manager's search shows documents of the own department and shared ones only, and none above a manager's access. */
  lemma ManagersSeeTheirOwn(env: Environment, docs: map<DocId, Document>, own: Department, request: SearchRequest,
                            company: string, ragTopK: nat, query: Query, r: ChunkResult)
    requires TrustedQuery(company, DepartmentManager(Some(own)), request, ragTopK) == Ok(query)
    requires Truthful(env, docs, query, r)
    ensures own in docs[r.document].metadata.departments || SHARED in docs[r.document].metadata.departments
    ensures docs[r.document].metadata.access !in {COMPANY_ACCOUNT, INTERNAL_SYSTEM}
    ensures query.topK <= ragTopK
  {
    hide Environment.Chunks;
    var d :| d in docs[r.document].metadata.departments && d in query.departments;
    assert d == own || d == SHARED;
  }
}
