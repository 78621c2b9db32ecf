/** src/repositories/user.repository.ts: the user table. */
module UserRepo {
  import opened Wrappers
  import opened Domain
  import Tables

  function Key(u: User): Id { u.id }
  function Stamp(u: User): nat { u.createdAt }

  /** The `where: { verified: false }` of the pending-verification query. */
  predicate Unverified(u: User) { !u.verified }

  /** A query without `where`. */
  predicate AnyUser(u: User) { true }

  class UserRepository {
    var rows: map<Id, User>
    var order: seq<Id>
    var clock: nat

    /** The table invariant, plus the uniqueness of phone numbers the schema enforces. */
    ghost predicate Valid()
      reads this
    {
      && Tables.Valid(rows, order, clock, Key, Stamp)
      && (forall a, b :: a in rows && b in rows && rows[a].phone == rows[b].phone ==> a == b)
    }

    ghost predicate PhoneTaken(phone: string)
      reads this
    {
      exists id :: id in rows && rows[id].phone == phone
    }

    constructor ()
      ensures Valid() && rows == map[] && order == [] && clock == 0
    {
      rows, order, clock := map[], [], 0;
    }

    /**
     * `create`: stores exactly the given fields under the fresh id; `verified`
     * starts false (a schema default).
     */
    method Create(id: Id, data: UserDTO) returns (u: User)
      requires Valid() && id != "" && id !in rows && !PhoneTaken(data.phone)
      modifies this
      ensures Valid()
      ensures u == User(id, data.name, data.phone, data.role, data.password, data.nationalId, false, old(clock))
      ensures rows == old(rows)[id := u] && order == old(order) + [id] && clock == old(clock) + 1
    {
      u := User(id, data.name, data.phone, data.role, data.password, data.nationalId, false, clock);
      Tables.Insert(rows, order, clock, Key, Stamp, u);
      rows, order, clock := rows[id := u], order + [id], clock + 1;
    }

    /** `findById`: the record stored under `id`, or None. */
    function FindById(id: Id): (r: Option<User>)
      reads this
      ensures r.Some? <==> id in rows
      ensures r.Some? ==> r.value == rows[id]
    {
      if id in rows then Some(rows[id]) else None
    }

    /** `findByPhone`: the unique user with that phone number, or None. */
    function FindByPhone(phone: string): (r: Option<User>)
      reads this
      requires Valid()
      ensures r.Some? <==> PhoneTaken(phone)
      ensures r.Some? ==> r.value.phone == phone && r.value.id in rows && rows[r.value.id] == r.value
      ensures forall id :: id in rows && rows[id].phone == phone ==> r == Some(rows[id])
    {
      var p := (u: User) => u.phone == phone;
      var m := Tables.Matching(rows, order, p);
      Tables.MatchingSound(rows, order, p, Key);
      Tables.MatchingComplete(rows, order, p);
      assert forall id :: id in rows && rows[id].phone == phone ==> rows[id] in m by {
        forall id | id in rows && rows[id].phone == phone ensures rows[id] in m {
          var i :| 0 <= i < |order| && order[i] == id;
        }
      }
      if m == [] then None else assert m[0] in m; Some(m[0])
    }

    /** `findPendingVerification`: one page of the unverified users, newest first. */
    function FindPendingVerification(page: int, pageSize: int): (r: Found<User>)
      reads this
      requires Valid() && page >= 1 && pageSize >= 0
      ensures r.data == Tables.Window(Tables.Matching(rows, order, Unverified), Tables.Skip(page, pageSize), pageSize)
      ensures |r.data| <= pageSize
      ensures forall u :: u in r.data ==> !u.verified && u.id in rows && rows[u.id] == u
      ensures Tables.NewestFirst(r.data, Stamp)
      ensures r.totalItems == |set id | id in rows && !rows[id].verified|
    {
      Tables.QueryFacts(rows, order, clock, Key, Stamp, Unverified, page, pageSize);
      Tables.CountIs(rows, Unverified, set id | id in rows && !rows[id].verified);
      Tables.Query(rows, order, Unverified, page, pageSize)
    }

    /** `findAll`: one page of all users, newest first; `totalItems` is the table size. */
    function FindAll(page: int, pageSize: int): (r: Found<User>)
      reads this
      requires Valid() && page >= 1 && pageSize >= 0
      ensures r.data == Tables.Window(Tables.Matching(rows, order, AnyUser), Tables.Skip(page, pageSize), pageSize)
      ensures |r.data| <= pageSize
      ensures forall u :: u in r.data ==> u.id in rows && rows[u.id] == u
      ensures Tables.NewestFirst(r.data, Stamp)
      ensures r.totalItems == |rows|
    {
      Tables.QueryFacts(rows, order, clock, Key, Stamp, AnyUser, page, pageSize);
      Tables.CountIs(rows, AnyUser, rows.Keys);
      Tables.Query(rows, order, AnyUser, page, pageSize)
    }

    /** `verifyUser`: sets `verified` of that one user and changes nothing else. */
    method VerifyUser(id: Id) returns (r: Result<User>)
      requires Valid()
      modifies this
      ensures Valid() && order == old(order) && clock == old(clock)
      ensures id !in old(rows) ==> r == Err(RecordToUpdateNotFound) && rows == old(rows)
      ensures id in old(rows) ==> r == Ok(old(rows)[id].(verified := true)) && rows == old(rows)[id := r.value]
    {
      if id !in rows {
        return Err(RecordToUpdateNotFound);
      }
      var u := rows[id].(verified := true);
      Tables.Replace(rows, order, clock, Key, Stamp, u);
      rows := rows[id := u];
      r := Ok(u);
    }
  }
}
