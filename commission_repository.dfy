/** src/repositories/commission.repository.ts: the commission table. */
module CommissionRepo {
  import opened Wrappers
  import opened Domain
  import Tables

  function Key(x: Commission): Id { x.id }
  function Stamp(x: Commission): nat { x.createdAt }

  /** A query without `where`. */
  predicate AnyCommission(x: Commission) { true }

  /** The where object `search` assembles; an absent field imposes no constraint. */
  datatype CommissionWhere = CommissionWhere(commissionerId: Option<Id>, propertyId: Option<Id>)

  /** What commission filters mean: an id constrains only when it is non-empty. */
  predicate Admits(f: CommissionFilters, x: Commission) {
    && (TruthyString(f.commissionerId) ==> x.commissionerId == f.commissionerId.value)
    && (TruthyString(f.propertyId) ==> x.propertyId == f.propertyId.value)
  }

  function AdmittedBy(f: CommissionFilters): Commission -> bool {
    x => Admits(f, x)
  }

  predicate MatchesWhere(w: CommissionWhere, x: Commission) {
    && (w.commissionerId.Some? ==> x.commissionerId == w.commissionerId.value)
    && (w.propertyId.Some? ==> x.propertyId == w.propertyId.value)
  }

  /** Lines 47-53 of `search`: each filter enters the where object when it is truthy. */
  method BuildWhere(filters: CommissionFilters) returns (w: CommissionWhere)
    ensures forall x :: MatchesWhere(w, x) <==> Admits(filters, x)
    ensures w.commissionerId.Some? <==> TruthyString(filters.commissionerId)
    ensures w.propertyId.Some? <==> TruthyString(filters.propertyId)
  {
    w := CommissionWhere(None, None);
    if TruthyString(filters.commissionerId) {
      w := w.(commissionerId := filters.commissionerId);
    }
    if TruthyString(filters.propertyId) {
      w := w.(propertyId := filters.propertyId);
    }
  }

  /** The data `create` receives: the DTO's fields and the computed fee. */
  datatype NewCommission = NewCommission(propertyId: Id, commissionerId: Id, amount: int, smartRentFee: int)

  class CommissionRepository {
    var rows: map<Id, Commission>
    var order: seq<Id>
    var clock: nat

    ghost predicate Valid()
      reads this
    {
      Tables.Valid(rows, order, clock, Key, Stamp)
    }

    constructor ()
      ensures Valid() && rows == map[] && order == [] && clock == 0
    {
      rows, order, clock := map[], [], 0;
    }

    /** `create`: stores exactly the given fields under the fresh id. */
    method Create(id: Id, data: NewCommission) returns (x: Commission)
      requires Valid() && id != "" && id !in rows
      modifies this
      ensures Valid()
      ensures x == Commission(id, data.propertyId, data.commissionerId, data.amount, data.smartRentFee, old(clock))
      ensures rows == old(rows)[id := x] && order == old(order) + [id] && clock == old(clock) + 1
    {
      x := Commission(id, data.propertyId, data.commissionerId, data.amount, data.smartRentFee, clock);
      Tables.Insert(rows, order, clock, Key, Stamp, x);
      rows, order, clock := rows[id := x], order + [id], clock + 1;
    }

    /** `findById`: the record stored under `id`, or None. */
    function FindById(id: Id): (r: Option<Commission>)
      reads this
      ensures r.Some? <==> id in rows
      ensures r.Some? ==> r.value == rows[id]
    {
      if id in rows then Some(rows[id]) else None
    }

    /** Every stored commission the filters admit, newest first. */
    function Matches(filters: CommissionFilters): (m: seq<Commission>)
      reads this
      requires Valid()
      ensures forall x :: x in m ==> Admits(filters, x) && x.id in rows && rows[x.id] == x
      ensures forall id :: id in rows && Admits(filters, rows[id]) ==> rows[id] in m
      ensures Tables.NewestFirst(m, Stamp)
      ensures |m| == |set id | id in rows && Admits(filters, rows[id])|
    {
      Tables.MatchingFacts(rows, order, clock, Key, Stamp, AdmittedBy(filters));
      Tables.CountIs(rows, AdmittedBy(filters), set id | id in rows && Admits(filters, rows[id]));
      Tables.Matching(rows, order, AdmittedBy(filters))
    }

    /** `search`: page `page` of the matches, `pageSize` at a time, and the number of all matches. */
    method Search(filters: CommissionFilters, page: int, pageSize: int) returns (r: Found<Commission>)
      requires Valid() && page >= 1 && pageSize >= 0
      ensures r.data == Tables.Window(Matches(filters), Tables.Skip(page, pageSize), pageSize)
      ensures r.totalItems == |Matches(filters)|
      ensures |r.data| <= pageSize
      ensures forall x :: x in r.data ==> Admits(filters, x) && x.id in rows && rows[x.id] == x
      ensures Tables.NewestFirst(r.data, Stamp)
    {
      var w := BuildWhere(filters);
      var p := (x: Commission) => MatchesWhere(w, x);
      Tables.MatchingExt(rows, order, p, AdmittedBy(filters));
      Tables.MatchingCount(rows, order, clock, Key, Stamp, p);
      Tables.QueryFacts(rows, order, clock, Key, Stamp, p, page, pageSize);
      r := Tables.Query(rows, order, p, page, pageSize);
    }

    /** `findAll`: one page of all commissions, newest first, and their total number. */
    function FindAll(page: int, pageSize: int): (r: Found<Commission>)
      reads this
      requires Valid() && page >= 1 && pageSize >= 0
      ensures r.data == Tables.Window(Tables.Matching(rows, order, AnyCommission), Tables.Skip(page, pageSize), pageSize)
      ensures |r.data| <= pageSize
      ensures forall x :: x in r.data ==> x.id in rows && rows[x.id] == x
      ensures Tables.NewestFirst(r.data, Stamp)
      ensures r.totalItems == |rows|
    {
      Tables.QueryFacts(rows, order, clock, Key, Stamp, AnyCommission, page, pageSize);
      Tables.CountIs(rows, AnyCommission, rows.Keys);
      Tables.Query(rows, order, AnyCommission, page, pageSize)
    }
  }
}
