/** src/repositories/property.repository.ts: the property table and its search filter. */
module PropertyRepo {
  import opened Wrappers
  import opened Domain
  import opened Strings
  import Tables

  function Key(x: Property): Id { x.id }
  function Stamp(x: Property): nat { x.createdAt }

  /** The `where: { verified: false }` of the pending-verification query. */
  predicate Unverified(x: Property) { !x.verified }

  /** The `price: { gte?, lte? }` part of a where object. */
  datatype PriceRange = PriceRange(gte: Option<int>, lte: Option<int>)

  /** The where object `search` assembles; an absent field imposes no constraint. */
  datatype PropertyWhere = PropertyWhere(
    propertyType: Option<PropertyType>, price: Option<PriceRange>, location: Option<string>,
    rooms: Option<int>, status: Option<PropertyStatus>, verified: Option<bool>)

  /** The fields `update` may overwrite; `None` leaves the stored value. */
  datatype PropertyPatch = PropertyPatch(
    title: Option<string>, propertyType: Option<PropertyType>, price: Option<int>,
    location: Option<string>, rooms: Option<int>, status: Option<PropertyStatus>)

  /**
   * What a set of filters means: type, status and the verified flag match
   * exactly whenever given; the price bounds are inclusive; the location is a
   * case-insensitive substring.  A price bound, a room count or a location
   * that is falsy (0 or the empty string) is no constraint at all.
   */
  predicate Admits(f: PropertyFilters, x: Property) {
    && (f.propertyType.Some? ==> x.propertyType == f.propertyType.value)
    && (TruthyNumber(f.minPrice) ==> x.price >= f.minPrice.value)
    && (TruthyNumber(f.maxPrice) ==> x.price <= f.maxPrice.value)
    && (TruthyString(f.location) ==> Includes(Lower(x.location), Lower(f.location.value)))
    && (TruthyNumber(f.rooms) ==> x.rooms == Some(f.rooms.value))
    && (f.status.Some? ==> x.status == f.status.value)
    && (f.verified.Some? ==> x.verified == f.verified.value)
  }

  function AdmittedBy(f: PropertyFilters): Property -> bool {
    x => Admits(f, x)
  }

  /** What the store does with a where object: every present field must hold. */
  predicate MatchesWhere(w: PropertyWhere, x: Property) {
    && (w.propertyType.Some? ==> x.propertyType == w.propertyType.value)
    && (w.price.Some? ==>
          && (w.price.value.gte.Some? ==> x.price >= w.price.value.gte.value)
          && (w.price.value.lte.Some? ==> x.price <= w.price.value.lte.value))
    && (w.location.Some? ==> Includes(Lower(x.location), Lower(w.location.value)))
    && (w.rooms.Some? ==> x.rooms == Some(w.rooms.value))
    && (w.status.Some? ==> x.status == w.status.value)
    && (w.verified.Some? ==> x.verified == w.verified.value)
  }

  /**
   * Lines 51-65 of `search`: the where object is filled in one field at a time,
   * each guarded by a truthiness test; `verified` is tested against undefined
   * only, so `false` is applied.
   */
  method BuildWhere(filters: PropertyFilters) returns (w: PropertyWhere)
    ensures forall x :: MatchesWhere(w, x) <==> Admits(filters, x)
    ensures w.price.Some? <==> TruthyNumber(filters.minPrice) || TruthyNumber(filters.maxPrice)
    ensures w.verified == filters.verified
  {
    w := PropertyWhere(None, None, None, None, None, None);
    if filters.propertyType.Some? {
      w := w.(propertyType := filters.propertyType);
    }
    if TruthyNumber(filters.minPrice) || TruthyNumber(filters.maxPrice) {
      var range := PriceRange(None, None);
      if TruthyNumber(filters.minPrice) {
        range := range.(gte := filters.minPrice);
      }
      if TruthyNumber(filters.maxPrice) {
        range := range.(lte := filters.maxPrice);
      }
      w := w.(price := Some(range));
    }
    if TruthyString(filters.location) {
      w := w.(location := filters.location);
    }
    if TruthyNumber(filters.rooms) {
      w := w.(rooms := filters.rooms);
    }
    if filters.status.Some? {
      w := w.(status := filters.status);
    }
    if filters.verified.Some? {
      w := w.(verified := filters.verified);
    }
  }

  /** `update`'s data: the given fields overwrite, every other field is kept. */
  function ApplyPatch(x: Property, patch: PropertyPatch): (y: Property)
    ensures y.id == x.id && y.ownerId == x.ownerId && y.verified == x.verified && y.createdAt == x.createdAt
    ensures y.title == (if patch.title.Some? then patch.title.value else x.title)
    ensures y.propertyType == (if patch.propertyType.Some? then patch.propertyType.value else x.propertyType)
    ensures y.price == (if patch.price.Some? then patch.price.value else x.price)
    ensures y.location == (if patch.location.Some? then patch.location.value else x.location)
    ensures y.rooms == (if patch.rooms.Some? then patch.rooms else x.rooms)
    ensures y.status == (if patch.status.Some? then patch.status.value else x.status)
  {
    x.(title := if patch.title.Some? then patch.title.value else x.title,
       propertyType := if patch.propertyType.Some? then patch.propertyType.value else x.propertyType,
       price := if patch.price.Some? then patch.price.value else x.price,
       location := if patch.location.Some? then patch.location.value else x.location,
       rooms := if patch.rooms.Some? then patch.rooms else x.rooms,
       status := if patch.status.Some? then patch.status.value else x.status)
  }

  /** The patch `completeRequest` sends: only the status. */
  function StatusPatch(s: PropertyStatus): PropertyPatch {
    PropertyPatch(None, None, None, None, None, Some(s))
  }

  /** The status patch changes the status and nothing else. */
  lemma StatusPatchSetsStatus(x: Property, s: PropertyStatus)
    ensures ApplyPatch(x, StatusPatch(s)) == x.(status := s)
  {
  }

  class PropertyRepository {
    var rows: map<Id, Property>
    var order: seq<Id>
    var clock: nat

    ghost predicate Valid()
      reads this
    {
      Tables.Valid(rows, order, clock, Key, Stamp)
    }

    constructor ()
      ensures Valid() && rows == map[] && order == [] && clock == 0
    {
      rows, order, clock := map[], [], 0;
    }

    /**
     * `create`: stores exactly the DTO's fields; status AVAILABLE and
     * verified=false are schema defaults.
     */
    method Create(id: Id, data: PropertyDTO) returns (x: Property)
      requires Valid() && id != "" && id !in rows
      modifies this
      ensures Valid()
      ensures x == Property(id, data.title, data.propertyType, data.price, data.location, data.rooms,
                            AVAILABLE, false, data.ownerId, old(clock))
      ensures rows == old(rows)[id := x] && order == old(order) + [id] && clock == old(clock) + 1
    {
      x := Property(id, data.title, data.propertyType, data.price, data.location, data.rooms,
                    AVAILABLE, false, data.ownerId, clock);
      Tables.Insert(rows, order, clock, Key, Stamp, x);
      rows, order, clock := rows[id := x], order + [id], clock + 1;
    }

    /** `findById`: the record stored under `id`, or None. */
    function FindById(id: Id): (r: Option<Property>)
      reads this
      ensures r.Some? <==> id in rows
      ensures r.Some? ==> r.value == rows[id]
    {
      if id in rows then Some(rows[id]) else None
    }

    /** Every stored property the filters admit, newest first. */
    function Matches(filters: PropertyFilters): (m: seq<Property>)
      reads this
      requires Valid()
      ensures forall x :: x in m ==> Admits(filters, x) && x.id in rows && rows[x.id] == x
      ensures forall id :: id in rows && Admits(filters, rows[id]) ==> rows[id] in m
      ensures Tables.NewestFirst(m, Stamp)
      ensures |m| == |set id | id in rows && Admits(filters, rows[id])|
    {
      Tables.MatchingFacts(rows, order, clock, Key, Stamp, AdmittedBy(filters));
      Tables.CountIs(rows, AdmittedBy(filters), set id | id in rows && Admits(filters, rows[id]));
      Tables.Matching(rows, order, AdmittedBy(filters))
    }

    /**
     * `search`: page `page` of the matches, `pageSize` at a time, and the
     * number of all matches.
     */
    method Search(filters: PropertyFilters, page: int, pageSize: int) returns (r: Found<Property>)
      requires Valid() && page >= 1 && pageSize >= 0
      ensures r.data == Tables.Window(Matches(filters), Tables.Skip(page, pageSize), pageSize)
      ensures r.totalItems == |Matches(filters)|
      ensures |r.data| <= pageSize
      ensures forall x :: x in r.data ==> Admits(filters, x) && x.id in rows && rows[x.id] == x
      ensures Tables.NewestFirst(r.data, Stamp)
    {
      var w := BuildWhere(filters);
      var p := (x: Property) => MatchesWhere(w, x);
      Tables.MatchingExt(rows, order, p, AdmittedBy(filters));
      Tables.MatchingCount(rows, order, clock, Key, Stamp, p);
      Tables.QueryFacts(rows, order, clock, Key, Stamp, p, page, pageSize);
      r := Tables.Query(rows, order, p, page, pageSize);
    }

    /** `findPendingVerification`: one page of the unverified properties, newest first. */
    function FindPendingVerification(page: int, pageSize: int): (r: Found<Property>)
      reads this
      requires Valid() && page >= 1 && pageSize >= 0
      ensures r.data == Tables.Window(Tables.Matching(rows, order, Unverified), Tables.Skip(page, pageSize), pageSize)
      ensures |r.data| <= pageSize
      ensures forall x :: x in r.data ==> !x.verified && x.id in rows && rows[x.id] == x
      ensures Tables.NewestFirst(r.data, Stamp)
      ensures r.totalItems == |set id | id in rows && !rows[id].verified|
    {
      Tables.QueryFacts(rows, order, clock, Key, Stamp, Unverified, page, pageSize);
      Tables.CountIs(rows, Unverified, set id | id in rows && !rows[id].verified);
      Tables.Query(rows, order, Unverified, page, pageSize)
    }

    /** `update`: overwrites the patched fields of that one property. */
    method Update(id: Id, patch: PropertyPatch) returns (r: Result<Property>)
      requires Valid()
      modifies this
      ensures Valid() && order == old(order) && clock == old(clock)
      ensures id !in old(rows) ==> r == Err(RecordToUpdateNotFound) && rows == old(rows)
      ensures id in old(rows) ==> r == Ok(ApplyPatch(old(rows)[id], patch)) && rows == old(rows)[id := r.value]
    {
      if id !in rows {
        return Err(RecordToUpdateNotFound);
      }
      var x := ApplyPatch(rows[id], patch);
      Tables.Replace(rows, order, clock, Key, Stamp, x);
      rows := rows[id := x];
      r := Ok(x);
    }

    /** `verifyProperty`: sets `verified` of that one property and changes nothing else. */
    method VerifyProperty(id: Id) returns (r: Result<Property>)
      requires Valid()
      modifies this
      ensures Valid() && order == old(order) && clock == old(clock)
      ensures id !in old(rows) ==> r == Err(RecordToUpdateNotFound) && rows == old(rows)
      ensures id in old(rows) ==> r == Ok(old(rows)[id].(verified := true)) && rows == old(rows)[id := r.value]
    {
      if id !in rows {
        return Err(RecordToUpdateNotFound);
      }
      var x := rows[id].(verified := true);
      Tables.Replace(rows, order, clock, Key, Stamp, x);
      rows := rows[id := x];
      r := Ok(x);
    }

    /** `findByOwnerId`: all of that owner's properties, newest first, unpaged. */
    function FindByOwnerId(ownerId: Id): (m: seq<Property>)
      reads this
      requires Valid()
      ensures forall x :: x in m ==> x.ownerId == ownerId && x.id in rows && rows[x.id] == x
      ensures forall id :: id in rows && rows[id].ownerId == ownerId ==> rows[id] in m
      ensures Tables.NewestFirst(m, Stamp)
    {
      var p := (x: Property) => x.ownerId == ownerId;
      Tables.MatchingFacts(rows, order, clock, Key, Stamp, p);
      Tables.Matching(rows, order, p)
    }
  }
}
