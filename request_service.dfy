/**
 * src/services/request.service.ts: the rental-request lifecycle
 * PENDING -> CONNECTED -> COMPLETED over the request, user and property tables.
 */
module RequestService {
  import opened Wrappers
  import opened Domain
  import opened UserRepo
  import opened PropertyRepo
  import opened RequestRepo

  const TenantNotFound := "Tenant not found"
  const TenantNotVerified := "Tenant must be verified to submit requests"
  const PropertyNotFound := "Property not found"
  const PropertyNotAvailable := "Property is not available"
  const DuplicatePending := "You already have a pending request for this property"
  const RequestNotFound := "Request not found"
  const NotPending := "Request is not in pending status"
  const NotConnected := "Request must be connected before completion"

  /** At most one PENDING request per (tenant, property) pair. */
  ghost predicate OnePendingPerPair(rows: map<Id, Request>) {
    forall a, b ::
      (a in rows && b in rows && rows[a].status == PENDING && rows[b].status == PENDING
       && rows[a].tenantId == rows[b].tenantId && rows[a].propertyId == rows[b].propertyId) ==> a == b
  }

  /** Every request names a stored tenant and a stored property. */
  ghost predicate RefersTo(rows: map<Id, Request>, userIds: set<Id>, propertyIds: set<Id>) {
    forall id :: id in rows ==> rows[id].tenantId in userIds && rows[id].propertyId in propertyIds
  }

  /**
   * One step of the lifecycle seen on the whole table: no request disappears,
   * its tenant, property, message and creation stamp stay fixed, and its
   * status either stays or moves exactly one state forward.
   */
  ghost predicate Advances(before: map<Id, Request>, after: map<Id, Request>) {
    forall id :: id in before ==>
      && id in after
      && after[id].tenantId == before[id].tenantId && after[id].propertyId == before[id].propertyId
      && after[id].message == before[id].message && after[id].createdAt == before[id].createdAt
      && (StatusRank(after[id].status) == StatusRank(before[id].status)
          || StatusRank(after[id].status) == StatusRank(before[id].status) + 1)
  }

  /**
   * The tables as the service keeps them: the request and property tables are
   * well formed, no user has the empty id (the user table is only read here),
   * pending pairs are unique and every request refers to a stored tenant and
   * property.
   */
  ghost predicate Consistent(requests: RequestRepository, users: UserRepository, properties: PropertyRepository)
    reads requests, users, properties
  {
    && requests.Valid() && properties.Valid() && "" !in users.rows
    && OnePendingPerPair(requests.rows)
    && RefersTo(requests.rows, users.rows.Keys, properties.rows.Keys)
  }

  class RequestService {
    const requests: RequestRepository
    const users: UserRepository
    const properties: PropertyRepository

    ghost predicate Valid()
      reads this, requests, users, properties
    {
      Consistent(requests, users, properties)
    }

    constructor (requests: RequestRepository, users: UserRepository, properties: PropertyRepository)
      requires Consistent(requests, users, properties)
      ensures Valid() && this.requests == requests && this.users == users && this.properties == properties
    {
      this.requests := requests;
      this.users := users;
      this.properties := properties;
    }

    /**
     * `createRequest`: the guards run in the source's order and the first
     * failing one names the error; a failure writes nothing, success stores
     * exactly one new PENDING request.
     */
    method CreateRequest(dto: RequestDTO, id: Id) returns (r: Result<Request>)
      requires Valid() && id != "" && id !in requests.rows
      modifies requests
      ensures Valid() && Advances(old(requests.rows), requests.rows)
      ensures dto.tenantId !in users.rows ==> r == Err(TenantNotFound)
      ensures dto.tenantId in users.rows && !users.rows[dto.tenantId].verified ==> r == Err(TenantNotVerified)
      ensures dto.tenantId in users.rows && users.rows[dto.tenantId].verified && dto.propertyId !in properties.rows
              ==> r == Err(PropertyNotFound)
      ensures (dto.tenantId in users.rows && users.rows[dto.tenantId].verified && dto.propertyId in properties.rows
               && properties.rows[dto.propertyId].status != AVAILABLE) ==> r == Err(PropertyNotAvailable)
      ensures (dto.tenantId in users.rows && users.rows[dto.tenantId].verified && dto.propertyId in properties.rows
               && properties.rows[dto.propertyId].status == AVAILABLE
               && old(requests.HasPending(dto.tenantId, dto.propertyId))) ==> r == Err(DuplicatePending)
      ensures r.Ok? <==> dto.tenantId in users.rows && users.rows[dto.tenantId].verified
                         && dto.propertyId in properties.rows && properties.rows[dto.propertyId].status == AVAILABLE
                         && !old(requests.HasPending(dto.tenantId, dto.propertyId))
      ensures r.Err? ==> requests.rows == old(requests.rows) && requests.order == old(requests.order)
                         && requests.clock == old(requests.clock)
      ensures r.Ok? ==> r.value == Request(id, dto.tenantId, dto.propertyId, None, PENDING, dto.message, old(requests.clock))
                        && requests.rows == old(requests.rows)[id := r.value]
                        && requests.order == old(requests.order) + [id] && requests.clock == old(requests.clock) + 1
    {
      var tenant := users.FindById(dto.tenantId);
      if tenant.None? {
        return Err(TenantNotFound);
      }
      if !tenant.value.verified {
        return Err(TenantNotVerified);
      }
      var property := properties.FindById(dto.propertyId);
      if property.None? {
        return Err(PropertyNotFound);
      }
      if property.value.status != AVAILABLE {
        return Err(PropertyNotAvailable);
      }
      var existing := requests.Search(PendingOf(dto.tenantId, dto.propertyId), 1, 1);
      FirstPageDetectsPending(requests, dto.tenantId, dto.propertyId);
      if |existing.data| > 0 {
        return Err(DuplicatePending);
      }
      ghost var before := requests.rows;
      assert !requests.HasPending(dto.tenantId, dto.propertyId);
      var x := requests.Create(id, dto);
      NewPendingStep(before, x, users.rows.Keys, properties.rows.Keys);
      r := Ok(x);
    }

    /**
     * `connectRequest`: only a PENDING request moves, to CONNECTED, with the
     * admin recorded; every failure writes nothing.
     */
    method ConnectRequest(id: Id, adminId: Id) returns (r: Result<Request>)
      requires Valid()
      modifies requests
      ensures Valid() && Advances(old(requests.rows), requests.rows)
      ensures requests.order == old(requests.order) && requests.clock == old(requests.clock)
      ensures id !in old(requests.rows) ==> r == Err(RequestNotFound)
      ensures id in old(requests.rows) && old(requests.rows[id].status) != PENDING ==> r == Err(NotPending)
      ensures r.Ok? <==> id in old(requests.rows) && old(requests.rows[id].status) == PENDING
      ensures r.Err? ==> requests.rows == old(requests.rows)
      ensures r.Ok? ==> r.value == old(requests.rows[id]).(status := CONNECTED, adminId := Some(adminId))
                        && requests.rows == old(requests.rows)[id := r.value]
    {
      var request := requests.FindById(id);
      if request.None? {
        return Err(RequestNotFound);
      }
      if request.value.status != PENDING {
        return Err(NotPending);
      }
      ghost var before := requests.rows;
      r := requests.ConnectRequest(id, adminId);
      ForwardStep(before, id, r.value, users.rows.Keys, properties.rows.Keys);
    }

    /**
     * `completeRequest`: only a CONNECTED request moves, to COMPLETED, after
     * its property has been set to RENTED whatever its status was; every
     * failure writes nothing.
     */
    method CompleteRequest(id: Id) returns (r: Result<Request>)
      requires Valid()
      modifies requests, properties
      ensures Valid() && Advances(old(requests.rows), requests.rows)
      ensures requests.order == old(requests.order) && requests.clock == old(requests.clock)
      ensures properties.order == old(properties.order) && properties.clock == old(properties.clock)
      ensures id !in old(requests.rows) ==> r == Err(RequestNotFound)
      ensures id in old(requests.rows) && old(requests.rows[id].status) != CONNECTED ==> r == Err(NotConnected)
      ensures r.Ok? <==> id in old(requests.rows) && old(requests.rows[id].status) == CONNECTED
      ensures r.Err? ==> requests.rows == old(requests.rows) && properties.rows == old(properties.rows)
      ensures r.Ok? ==> r.value == old(requests.rows[id]).(status := COMPLETED)
                        && requests.rows == old(requests.rows)[id := r.value]
      ensures r.Ok? ==> var p := r.value.propertyId;
                        p in old(properties.rows)
                        && properties.rows == old(properties.rows)[p := old(properties.rows[p]).(status := RENTED)]
    {
      var request := requests.FindById(id);
      if request.None? {
        return Err(RequestNotFound);
      }
      if request.value.status != CONNECTED {
        return Err(NotConnected);
      }
      ghost var before := requests.rows;
      StatusPatchSetsStatus(properties.rows[request.value.propertyId], RENTED);
      var _ := properties.Update(request.value.propertyId, StatusPatch(RENTED));
      assert properties.rows.Keys == old(properties.rows.Keys);
      ghost var propertyIds := properties.rows.Keys;
      r := requests.CompleteRequest(id);
      ForwardStep(before, id, r.value, users.rows.Keys, propertyIds);
      assert RefersTo(requests.rows, users.rows.Keys, properties.rows.Keys);
    }

    /**
     * Completion closes the property: once a request is completed, the next
     * request for the same property fails as not available, even from a
     * verified tenant.
     */
    method CompleteThenRequest(id: Id, dto: RequestDTO, newId: Id) returns (completed: Result<Request>, next: Result<Request>)
      requires Valid() && newId != "" && newId !in requests.rows
      modifies requests, properties
      ensures Valid()
      ensures (completed.Ok? && dto.propertyId == completed.value.propertyId
               && dto.tenantId in users.rows && users.rows[dto.tenantId].verified) ==> next == Err(PropertyNotAvailable)
    {
      completed := CompleteRequest(id);
      next := CreateRequest(dto, newId);
    }
  }

  /**
   * Moving one non-completed request one state forward, to a state other than
   * PENDING, keeping its tenant, property, message and stamp, is a lifecycle
   * step that keeps the pending pairs unique and the references intact.
   */
  lemma ForwardStep(before: map<Id, Request>, id: Id, x: Request, userIds: set<Id>, propertyIds: set<Id>)
    requires id in before && x.status != PENDING
    requires StatusRank(x.status) == StatusRank(before[id].status) + 1
    requires x.tenantId == before[id].tenantId && x.propertyId == before[id].propertyId
    requires x.message == before[id].message && x.createdAt == before[id].createdAt
    ensures Advances(before, before[id := x])
    ensures OnePendingPerPair(before) ==> OnePendingPerPair(before[id := x])
    ensures RefersTo(before, userIds, propertyIds) ==> RefersTo(before[id := x], userIds, propertyIds)
  {
  }

  /**
   * Adding a PENDING request for a pair that has none, naming a stored tenant
   * and property, is a lifecycle step that keeps the invariants.
   */
  lemma NewPendingStep(before: map<Id, Request>, x: Request, userIds: set<Id>, propertyIds: set<Id>)
    requires x.id !in before && x.status == PENDING
    requires forall k :: k in before ==>
      !(before[k].tenantId == x.tenantId && before[k].propertyId == x.propertyId && before[k].status == PENDING)
    requires x.tenantId in userIds && x.propertyId in propertyIds
    ensures Advances(before, before[x.id := x])
    ensures OnePendingPerPair(before) ==> OnePendingPerPair(before[x.id := x])
    ensures RefersTo(before, userIds, propertyIds) ==> RefersTo(before[x.id := x], userIds, propertyIds)
  {
  }

  /** Statuses along a run of lifecycle steps never move backward. */
  ghost predicate NeverBackward(before: map<Id, Request>, after: map<Id, Request>) {
    forall id :: id in before ==>
      id in after && StatusRank(before[id].status) <= StatusRank(after[id].status)
      && after[id].tenantId == before[id].tenantId && after[id].propertyId == before[id].propertyId
  }

  /**
   * Over any history of request tables in which each table follows from the
   * previous one by a lifecycle step, no request's status ever moves back.
   */
  lemma {:induction false} HistoryNeverBackward(history: seq<map<Id, Request>>, i: nat, j: nat)
    requires forall k :: 0 <= k < |history| - 1 ==> Advances(history[k], history[k + 1])
    requires i <= j < |history|
    ensures NeverBackward(history[i], history[j])
    decreases j - i
  {
    if i < j {
      HistoryNeverBackward(history, i + 1, j);
      assert Advances(history[i], history[i + 1]);
    }
  }
}
