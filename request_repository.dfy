/** src/repositories/request.repository.ts: the rental-request table. */
module RequestRepo {
  import opened Wrappers
  import opened Domain
  import Tables

  function Key(x: Request): Id { x.id }
  function Stamp(x: Request): nat { x.createdAt }

  /** The where object `search` assembles; an absent field imposes no constraint. */
  datatype RequestWhere = RequestWhere(status: Option<RequestStatus>, tenantId: Option<Id>, propertyId: Option<Id>)

  /**
   * What request filters mean: the status matches exactly when given; a
   * tenant or property id constrains only when it is non-empty.
   */
  predicate Admits(f: RequestFilters, x: Request) {
    && (f.status.Some? ==> x.status == f.status.value)
    && (TruthyString(f.tenantId) ==> x.tenantId == f.tenantId.value)
    && (TruthyString(f.propertyId) ==> x.propertyId == f.propertyId.value)
  }

  function AdmittedBy(f: RequestFilters): Request -> bool {
    x => Admits(f, x)
  }

  predicate MatchesWhere(w: RequestWhere, x: Request) {
    && (w.status.Some? ==> x.status == w.status.value)
    && (w.tenantId.Some? ==> x.tenantId == w.tenantId.value)
    && (w.propertyId.Some? ==> x.propertyId == w.propertyId.value)
  }

  /** Lines 48-56 of `search`: each filter enters the where object when it is truthy. */
  method BuildWhere(filters: RequestFilters) returns (w: RequestWhere)
    ensures forall x :: MatchesWhere(w, x) <==> Admits(filters, x)
    ensures w.tenantId.Some? <==> TruthyString(filters.tenantId)
    ensures w.propertyId.Some? <==> TruthyString(filters.propertyId)
  {
    w := RequestWhere(None, None, None);
    if filters.status.Some? {
      w := w.(status := filters.status);
    }
    if TruthyString(filters.tenantId) {
      w := w.(tenantId := filters.tenantId);
    }
    if TruthyString(filters.propertyId) {
      w := w.(propertyId := filters.propertyId);
    }
  }

  /** The filters the duplicate check of `createRequest` passes. */
  function PendingOf(tenantId: Id, propertyId: Id): RequestFilters {
    RequestFilters(Some(PENDING), Some(tenantId), Some(propertyId))
  }

  class RequestRepository {
    var rows: map<Id, Request>
    var order: seq<Id>
    var clock: nat

    ghost predicate Valid()
      reads this
    {
      Tables.Valid(rows, order, clock, Key, Stamp)
    }

    constructor ()
      ensures Valid() && rows == map[] && order == [] && clock == 0
    {
      rows, order, clock := map[], [], 0;
    }

    /** `create`: a new request, PENDING and without an admin (schema defaults). */
    method Create(id: Id, data: RequestDTO) returns (x: Request)
      requires Valid() && id != "" && id !in rows
      modifies this
      ensures Valid()
      ensures x == Request(id, data.tenantId, data.propertyId, None, PENDING, data.message, old(clock))
      ensures rows == old(rows)[id := x] && order == old(order) + [id] && clock == old(clock) + 1
    {
      x := Request(id, data.tenantId, data.propertyId, None, PENDING, data.message, clock);
      Tables.Insert(rows, order, clock, Key, Stamp, x);
      rows, order, clock := rows[id := x], order + [id], clock + 1;
    }

    /** `findById`: the record stored under `id`, or None. */
    function FindById(id: Id): (r: Option<Request>)
      reads this
      ensures r.Some? <==> id in rows
      ensures r.Some? ==> r.value == rows[id]
    {
      if id in rows then Some(rows[id]) else None
    }

    /** Every stored request the filters admit, newest first. */
    function Matches(filters: RequestFilters): (m: seq<Request>)
      reads this
      requires Valid()
      ensures forall x :: x in m ==> Admits(filters, x) && x.id in rows && rows[x.id] == x
      ensures forall id :: id in rows && Admits(filters, rows[id]) ==> rows[id] in m
      ensures Tables.NewestFirst(m, Stamp)
      ensures |m| == |set id | id in rows && Admits(filters, rows[id])|
    {
      Tables.MatchingFacts(rows, order, clock, Key, Stamp, AdmittedBy(filters));
      Tables.CountIs(rows, AdmittedBy(filters), set id | id in rows && Admits(filters, rows[id]));
      Tables.Matching(rows, order, AdmittedBy(filters))
    }

    /** `search`: page `page` of the matches, `pageSize` at a time, and the number of all matches. */
    method Search(filters: RequestFilters, page: int, pageSize: int) returns (r: Found<Request>)
      requires Valid() && page >= 1 && pageSize >= 0
      ensures r.data == Tables.Window(Matches(filters), Tables.Skip(page, pageSize), pageSize)
      ensures r.totalItems == |Matches(filters)|
      ensures |r.data| <= pageSize
      ensures forall x :: x in r.data ==> Admits(filters, x) && x.id in rows && rows[x.id] == x
      ensures Tables.NewestFirst(r.data, Stamp)
    {
      var w := BuildWhere(filters);
      var p := (x: Request) => MatchesWhere(w, x);
      Tables.MatchingExt(rows, order, p, AdmittedBy(filters));
      Tables.MatchingCount(rows, order, clock, Key, Stamp, p);
      Tables.QueryFacts(rows, order, clock, Key, Stamp, p, page, pageSize);
      r := Tables.Query(rows, order, p, page, pageSize);
    }

    /** A pending request of that tenant for that property is stored. */
    ghost predicate HasPending(tenantId: Id, propertyId: Id)
      reads this
    {
      exists id :: id in rows && rows[id].tenantId == tenantId && rows[id].propertyId == propertyId
                   && rows[id].status == PENDING
    }

    /**
     * `update`: overwrites the status and the admin when given, nothing else.
     */
    method Update(id: Id, status: Option<RequestStatus>, adminId: Option<Id>) returns (r: Result<Request>)
      requires Valid()
      modifies this
      ensures Valid() && order == old(order) && clock == old(clock)
      ensures id !in old(rows) ==> r == Err(RecordToUpdateNotFound) && rows == old(rows)
      ensures id in old(rows) ==> r.Ok? && rows == old(rows)[id := r.value]
      ensures id in old(rows) ==>
        r.value == old(rows)[id].(status := if status.Some? then status.value else old(rows)[id].status,
                                  adminId := if adminId.Some? then adminId else old(rows)[id].adminId)
    {
      if id !in rows {
        return Err(RecordToUpdateNotFound);
      }
      var x := rows[id];
      if status.Some? {
        x := x.(status := status.value);
      }
      if adminId.Some? {
        x := x.(adminId := adminId);
      }
      Tables.Replace(rows, order, clock, Key, Stamp, x);
      rows := rows[id := x];
      r := Ok(x);
    }

    /** `connectRequest`: status CONNECTED and the handling admin recorded. */
    method ConnectRequest(id: Id, adminId: Id) returns (r: Result<Request>)
      requires Valid()
      modifies this
      ensures Valid() && order == old(order) && clock == old(clock)
      ensures id !in old(rows) ==> r == Err(RecordToUpdateNotFound) && rows == old(rows)
      ensures id in old(rows) ==> r == Ok(old(rows)[id].(status := CONNECTED, adminId := Some(adminId)))
                                  && rows == old(rows)[id := r.value]
    {
      r := Update(id, Some(CONNECTED), Some(adminId));
    }

    /** `completeRequest`: status COMPLETED, the admin left as it was. */
    method CompleteRequest(id: Id) returns (r: Result<Request>)
      requires Valid()
      modifies this
      ensures Valid() && order == old(order) && clock == old(clock)
      ensures id !in old(rows) ==> r == Err(RecordToUpdateNotFound) && rows == old(rows)
      ensures id in old(rows) ==> r == Ok(old(rows)[id].(status := COMPLETED)) && rows == old(rows)[id := r.value]
    {
      r := Update(id, Some(COMPLETED), None);
    }
  }

  /**
   * The duplicate test of `createRequest` (a one-item first page of the
   * tenant's pending requests for the property is non-empty) holds exactly
   * when such a request is stored, provided both ids are non-empty.
   */
  lemma FirstPageDetectsPending(repo: RequestRepository, tenantId: Id, propertyId: Id)
    requires repo.Valid() && tenantId != "" && propertyId != ""
    ensures |Tables.Window(repo.Matches(PendingOf(tenantId, propertyId)), Tables.Skip(1, 1), 1)| > 0
            <==> repo.HasPending(tenantId, propertyId)
  {
    var m := repo.Matches(PendingOf(tenantId, propertyId));
    assert Tables.Skip(1, 1) == 0;
    if repo.HasPending(tenantId, propertyId) {
      var id :| id in repo.rows && repo.rows[id].tenantId == tenantId && repo.rows[id].propertyId == propertyId
                && repo.rows[id].status == PENDING;
      assert Admits(PendingOf(tenantId, propertyId), repo.rows[id]);
      assert repo.rows[id] in m;
    }
    if |m| > 0 {
      var x := m[0];
      assert x in m;
      assert repo.rows[x.id] == x;
    }
  }
}
