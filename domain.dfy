/**
 * The entities, enumerations and input shapes of the rental marketplace
 * (src/types/index.ts and the ORM records it re-exports).
 *
 * Every stored record carries its id and a creation stamp `createdAt`; the
 * stamps come from a per-table counter, so a larger stamp means a newer record.
 */
module Domain {
  import opened Wrappers

  /** Record ids (UUID strings in the database). */
  type Id = string

  datatype Role = ADMIN | COMMISSIONER | LANDLORD | TENANT
  datatype PropertyType = HOUSE | APARTMENT | PLOT | ROOM
  datatype PropertyStatus = AVAILABLE | RENTED | SOLD
  datatype RequestStatus = PENDING | CONNECTED | COMPLETED

  /** A stored user; `password` holds the password hash. */
  datatype User = User(
    id: Id, name: string, phone: string, role: Role, password: string,
    nationalId: Option<string>, verified: bool, createdAt: nat)

  /** A user as the services return it: every field except the password hash. */
  datatype PublicUser = PublicUser(
    id: Id, name: string, phone: string, role: Role,
    nationalId: Option<string>, verified: bool, createdAt: nat)

  datatype Property = Property(
    id: Id, title: string, propertyType: PropertyType, price: int, location: string,
    rooms: Option<int>, status: PropertyStatus, verified: bool, ownerId: Id, createdAt: nat)

  datatype Request = Request(
    id: Id, tenantId: Id, propertyId: Id, adminId: Option<Id>,
    status: RequestStatus, message: Option<string>, createdAt: nat)

  datatype Commission = Commission(
    id: Id, propertyId: Id, commissionerId: Id, amount: int, smartRentFee: int, createdAt: nat)

  datatype UserDTO = UserDTO(name: string, phone: string, role: Role, nationalId: Option<string>, password: string)
  datatype LoginDTO = LoginDTO(phone: string, password: string)
  datatype PropertyDTO = PropertyDTO(
    title: string, propertyType: PropertyType, price: int, location: string, rooms: Option<int>, ownerId: Id)
  datatype RequestDTO = RequestDTO(tenantId: Id, propertyId: Id, message: Option<string>)
  datatype CommissionDTO = CommissionDTO(propertyId: Id, commissionerId: Id, amount: int)

  /**
   * Query filters.  `None` stands for an absent (undefined) query parameter;
   * numeric parameters that did not parse (NaN) are absent as well.
   */
  datatype PropertyFilters = PropertyFilters(
    propertyType: Option<PropertyType>, minPrice: Option<int>, maxPrice: Option<int>,
    location: Option<string>, rooms: Option<int>, status: Option<PropertyStatus>, verified: Option<bool>)
  datatype RequestFilters = RequestFilters(status: Option<RequestStatus>, tenantId: Option<Id>, propertyId: Option<Id>)
  datatype CommissionFilters = CommissionFilters(commissionerId: Option<Id>, propertyId: Option<Id>)

  /** The `{ data, totalItems }` pair the paginated repository queries return. */
  datatype Found<T> = Found(data: seq<T>, totalItems: nat)

  /** The identity the authentication middleware attaches to a request. */
  datatype AuthUser = AuthUser(id: Id, role: Role, phone: string)

  /**
   * The message of the store's error when an update names an id that is not
   * stored (the ORM's "record to update not found" failure, abbreviated).
   */
  const RecordToUpdateNotFound := "Record to update not found"

  /** JavaScript truthiness of an optional string: present and non-empty. */
  predicate TruthyString(s: Option<string>) {
    s.Some? && s.value != ""
  }

  /** JavaScript truthiness of an optional number: present and non-zero. */
  predicate TruthyNumber(n: Option<int>) {
    n.Some? && n.value != 0
  }

  /** The projection `const { password, ...rest } = user`. */
  function StripPassword(u: User): PublicUser {
    PublicUser(u.id, u.name, u.phone, u.role, u.nationalId, u.verified, u.createdAt)
  }

  /** Position of a request status in the lifecycle PENDING, CONNECTED, COMPLETED. */
  function StatusRank(s: RequestStatus): nat {
    match s
    case PENDING => 0
    case CONNECTED => 1
    case COMPLETED => 2
  }
}
