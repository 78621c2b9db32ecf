/**
 * src/services/user.service.ts: registration, login and verification over the
 * user table.  The password hash and its check (bcrypt) are parameters.
 */
module UserService {
  import opened Wrappers
  import opened Domain
  import opened UserRepo

  const PhoneInUse := "User with this phone number already exists"
  const InvalidCredentials := "Invalid credentials"

  /** What `login` returns: the user without the password hash, and a token. */
  datatype LoginResult = LoginResult(user: PublicUser, token: string)

  class UserService {
    const users: UserRepository

    ghost predicate Valid()
      reads this, users
    {
      users.Valid()
    }

    constructor (users: UserRepository)
      requires users.Valid()
      ensures Valid() && this.users == users
    {
      this.users := users;
    }

    /**
     * `register`: refuses a phone number already in use and then writes
     * nothing; otherwise stores the DTO with the password replaced by its
     * hash, whatever the role, and returns the record without the hash.
     */
    method Register(dto: UserDTO, id: Id, hash: string -> string) returns (r: Result<PublicUser>)
      requires Valid() && id != "" && id !in users.rows
      modifies users
      ensures Valid()
      ensures r.Err? <==> old(users.PhoneTaken(dto.phone))
      ensures r.Err? ==> r.message == PhoneInUse && users.rows == old(users.rows)
                         && users.order == old(users.order) && users.clock == old(users.clock)
      ensures r.Ok? ==> var u := User(id, dto.name, dto.phone, dto.role, hash(dto.password), dto.nationalId, false,
                                      old(users.clock));
                        && users.rows == old(users.rows)[id := u]
                        && users.order == old(users.order) + [id] && users.clock == old(users.clock) + 1
                        && r.value == StripPassword(u)
    {
      var existing := users.FindByPhone(dto.phone);
      if existing.Some? {
        return Err(PhoneInUse);
      }
      var hashed := hash(dto.password);
      var u := users.Create(id, dto.(password := hashed));
      r := Ok(StripPassword(u));
    }

    /**
     * `login`: an unknown phone number and a wrong password fail with the same
     * message; success returns the stored user without the hash and an empty
     * token.
     */
    function Login(dto: LoginDTO, compare: (string, string) -> bool): (r: Result<LoginResult>)
      reads this, users
      requires Valid()
      ensures r.Err? ==> r == Err(InvalidCredentials)
      ensures !users.PhoneTaken(dto.phone) ==> r.Err?
      ensures forall id :: id in users.rows && users.rows[id].phone == dto.phone ==>
        (r.Ok? <==> compare(dto.password, users.rows[id].password))
        && (r.Ok? ==> r.value == LoginResult(StripPassword(users.rows[id]), ""))
    {
      var found := users.FindByPhone(dto.phone);
      if found.None? then Err(InvalidCredentials)
      else if !compare(dto.password, found.value.password) then Err(InvalidCredentials)
      else Ok(LoginResult(StripPassword(found.value), ""))
    }

    /** `getUserById`: None for an unknown id, otherwise the user without the hash. */
    function GetUserById(id: Id): (r: Option<PublicUser>)
      reads this, users
      ensures r.None? <==> id !in users.rows
      ensures r.Some? ==> r.value == StripPassword(users.rows[id])
    {
      var found := users.FindById(id);
      if found.None? then None else Some(StripPassword(found.value))
    }

    /**
     * `verifyUser`: marks the user verified, changes nothing else and returns
     * the record without the hash; verifying twice changes nothing more.
     */
    method VerifyUser(id: Id) returns (r: Result<PublicUser>)
      requires Valid()
      modifies users
      ensures Valid() && users.order == old(users.order) && users.clock == old(users.clock)
      ensures id !in old(users.rows) ==> r == Err(RecordToUpdateNotFound) && users.rows == old(users.rows)
      ensures id in old(users.rows) ==> users.rows == old(users.rows)[id := old(users.rows[id]).(verified := true)]
                                         && r == Ok(StripPassword(users.rows[id]))
      ensures id in old(users.rows) && old(users.rows[id].verified) ==> users.rows == old(users.rows)
    {
      var u := users.VerifyUser(id);
      if u.Err? {
        return Err(u.message);
      }
      r := Ok(StripPassword(u.value));
    }
  }

  /**
   * A user stored with the hash of `password` can log in with that password,
   * provided the hash check accepts every password against its own hash.
   */
  lemma LoginAfterRegister(service: UserService, id: Id, password: string,
                           hash: string -> string, compare: (string, string) -> bool)
    requires service.Valid() && id in service.users.rows
    requires service.users.rows[id].password == hash(password)
    requires forall p :: compare(p, hash(p))
    ensures service.Login(LoginDTO(service.users.rows[id].phone, password), compare)
            == Ok(LoginResult(StripPassword(service.users.rows[id]), ""))
  {
    assert compare(password, hash(password));
  }

  /** The public view keeps every field of the record except the password hash. */
  lemma StripPasswordForgetsOnlyThePassword(u: User, v: User)
    ensures StripPassword(u) == StripPassword(v) <==> u.(password := v.password) == v
  {
  }
}
