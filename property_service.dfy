/** src/services/property.service.ts: owner and authorization checks around the property table. */
module PropertyService {
  import opened Wrappers
  import opened Domain
  import opened UserRepo
  import opened PropertyRepo
  import Tables

  const OwnerNotFound := "Owner not found"
  const OwnerNotVerified := "Owner must be verified to create properties"
  const PropertyNotFound := "Property not found"
  const UpdateUnauthorized := "Unauthorized to update this property"

  /** Only the owner of a property, or an administrator, may change it. */
  predicate MayUpdate(x: Property, userId: Id, userRole: Role) {
    x.ownerId == userId || userRole == ADMIN
  }

  class PropertyService {
    const properties: PropertyRepository
    const users: UserRepository

    ghost predicate Valid()
      reads this, properties
    {
      properties.Valid()
    }

    constructor (properties: PropertyRepository, users: UserRepository)
      requires properties.Valid()
      ensures Valid() && this.properties == properties && this.users == users
    {
      this.properties := properties;
      this.users := users;
    }

    /**
     * `createProperty`: the owner must exist and be verified, whatever their
     * role; then exactly the DTO's property is stored, AVAILABLE and
     * unverified.
     */
    method CreateProperty(dto: PropertyDTO, id: Id) returns (r: Result<Property>)
      requires Valid() && id != "" && id !in properties.rows
      modifies properties
      ensures Valid()
      ensures dto.ownerId !in users.rows ==> r == Err(OwnerNotFound)
      ensures dto.ownerId in users.rows && !users.rows[dto.ownerId].verified ==> r == Err(OwnerNotVerified)
      ensures r.Ok? <==> dto.ownerId in users.rows && users.rows[dto.ownerId].verified
      ensures r.Err? ==> properties.rows == old(properties.rows) && properties.order == old(properties.order)
                         && properties.clock == old(properties.clock)
      ensures r.Ok? ==> r.value == Property(id, dto.title, dto.propertyType, dto.price, dto.location, dto.rooms,
                                            AVAILABLE, false, dto.ownerId, old(properties.clock))
                        && properties.rows == old(properties.rows)[id := r.value]
                        && properties.order == old(properties.order) + [id]
                        && properties.clock == old(properties.clock) + 1
    {
      var owner := users.FindById(dto.ownerId);
      if owner.None? {
        return Err(OwnerNotFound);
      }
      if !owner.value.verified {
        return Err(OwnerNotVerified);
      }
      var x := properties.Create(id, dto);
      r := Ok(x);
    }

    /**
     * `updateProperty`: allowed exactly for the owner or an administrator of
     * a stored property; then only the patched fields of that property change.
     */
    method UpdateProperty(id: Id, patch: PropertyPatch, userId: Id, userRole: Role) returns (r: Result<Property>)
      requires Valid()
      modifies properties
      ensures Valid()
      ensures properties.order == old(properties.order) && properties.clock == old(properties.clock)
      ensures id !in old(properties.rows) ==> r == Err(PropertyNotFound)
      ensures id in old(properties.rows) && !MayUpdate(old(properties.rows[id]), userId, userRole)
              ==> r == Err(UpdateUnauthorized)
      ensures r.Ok? <==> id in old(properties.rows) && MayUpdate(old(properties.rows[id]), userId, userRole)
      ensures r.Err? ==> properties.rows == old(properties.rows)
      ensures r.Ok? ==> r.value == ApplyPatch(old(properties.rows[id]), patch)
                        && properties.rows == old(properties.rows)[id := r.value]
    {
      var x := properties.FindById(id);
      if x.None? {
        return Err(PropertyNotFound);
      }
      if !MayUpdate(x.value, userId, userRole) {
        return Err(UpdateUnauthorized);
      }
      r := properties.Update(id, patch);
    }

    /**
     * `verifyProperty`: marks the property verified and changes nothing else;
     * verifying an already verified property changes nothing at all.
     */
    method VerifyProperty(id: Id) returns (r: Result<Property>)
      requires Valid()
      modifies properties
      ensures Valid()
      ensures properties.order == old(properties.order) && properties.clock == old(properties.clock)
      ensures id !in old(properties.rows) ==> r == Err(RecordToUpdateNotFound) && properties.rows == old(properties.rows)
      ensures id in old(properties.rows) ==> r == Ok(old(properties.rows[id]).(verified := true))
                                             && properties.rows == old(properties.rows)[id := r.value]
      ensures id in old(properties.rows) && old(properties.rows[id].verified) ==> properties.rows == old(properties.rows)
    {
      r := properties.VerifyProperty(id);
    }

    /** `getPendingVerification`: one page of the unverified properties, newest first. */
    function GetPendingVerification(page: int, pageSize: int): (r: Found<Property>)
      reads this, properties
      requires Valid() && page >= 1 && pageSize >= 0
      ensures r.data == Tables.Window(Tables.Matching(properties.rows, properties.order, PropertyRepo.Unverified),
                                      Tables.Skip(page, pageSize), pageSize)
      ensures |r.data| <= pageSize
      ensures forall x :: x in r.data ==> !x.verified && x.id in properties.rows && properties.rows[x.id] == x
      ensures Tables.NewestFirst(r.data, PropertyRepo.Stamp)
      ensures r.totalItems == |set id | id in properties.rows && !properties.rows[id].verified|
    {
      properties.FindPendingVerification(page, pageSize)
    }
  }
}
