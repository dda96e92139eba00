/** Users and roles. A role is stored once per role name; a user has a
    unique username, the hash of its password and one role. The password
    encoder is a parameter: only its being applied matters here, not what it
    computes. */
module Users {
  import opened Outcomes
  import opened Text

  type Uuid = nat

  // ---------------------------------------------------------------------
  // The role enumeration
  // ---------------------------------------------------------------------

  datatype UserRole = Admin | User

  /** `getRoleName`: each constant's name is its identifier. */
  function RoleName(r: UserRole): (name: string)
    ensures |name| > 0
  {
    match r
    case Admin => "ADMIN"
    case User => "USER"
  }

  datatype RoleError = UnknownRole(name: string)

  /** `UserRole.fromString`: the constant whose name equals `name` exactly;
      any other string, a case variant included, is rejected. */
  function FromString(name: string): (r: Result<UserRole, RoleError>)
    ensures r.Success? ==> RoleName(r.value) == name
    ensures r.Failure? ==> r.error == UnknownRole(name) && forall role: UserRole :: RoleName(role) != name
  {
    if name == RoleName(Admin) then Success(Admin)
    else if name == RoleName(User) then Success(User)
    else Failure(UnknownRole(name))
  }

  lemma FromStringOfRoleName(r: UserRole)
    ensures FromString(RoleName(r)) == Success(r)
  {
  }

  lemma RoleNameInjective(a: UserRole, b: UserRole)
    ensures RoleName(a) == RoleName(b) ==> a == b
  {
  }

  /** The role entity as the code builds it; the id is set by the database
      when the entity is saved. */
  datatype Role = Role(id: Option<Uuid>, name: string)

  /** `Role.fromUserRole`: the name is the constant's name and the id stays
      unset. */
  function FromUserRole(r: UserRole): (role: Role)
    ensures role.id.None?
    ensures FromString(role.name) == Success(r)
  {
    Role(None, RoleName(r))
  }

  /** `Role.toUserRole`. */
  function ToUserRole(role: Role): (r: Result<UserRole, RoleError>)
    ensures r.Success? <==> role.name == "ADMIN" || role.name == "USER"
    ensures r.Success? ==> RoleName(r.value) == role.name
  {
    FromString(role.name)
  }

  lemma ToUserRoleOfFromUserRole(r: UserRole)
    ensures ToUserRole(FromUserRole(r)) == Success(r)
  {
  }

  // ---------------------------------------------------------------------
  // State
  // ---------------------------------------------------------------------

  /** A stored user; `role` is the id of its role entity. */
  datatype Account = Account(username: string, passwordHash: string, role: Uuid)

  /** The role table as a map from the (unique) role name to the role's id,
      and the user table. */
  datatype Directory = Directory(roles: map<string, Uuid>, users: map<Uuid, Account>)

  predicate UsernameTaken(users: map<Uuid, Account>, name: string)
  {
    exists id :: id in users && users[id].username == name
  }

  predicate DistinctUsernames(users: map<Uuid, Account>)
  {
    forall a, b :: a in users && b in users && users[a].username == users[b].username ==> a == b
  }

  /** Usernames are unique and every user's role is stored. */
  predicate Valid(d: Directory)
  {
    DistinctUsernames(d.users) && forall id :: id in d.users ==> d.users[id].role in d.roles.Values
  }

  // ---------------------------------------------------------------------
  // The role service
  // ---------------------------------------------------------------------

  /** `findByUserRole`: the role stored under the constant's name. */
  function FindByUserRole(roles: map<string, Uuid>, r: UserRole): (found: Option<Uuid>)
    ensures found.Some? <==> RoleName(r) in roles
    ensures found.Some? ==> found.value == roles[RoleName(r)]
  {
    if RoleName(r) in roles then Some(roles[RoleName(r)]) else None
  }

  /** `getOrCreateRole`: the stored role of that name, or a new one saved
      under `newId`, the id the database generates. */
  function GetOrCreateRole(roles: map<string, Uuid>, r: UserRole, newId: Uuid): (result: (map<string, Uuid>, Uuid))
    ensures RoleName(r) in roles ==> result == (roles, roles[RoleName(r)])
    ensures RoleName(r) !in roles ==> result == (roles[RoleName(r) := newId], newId)
    ensures RoleName(r) in result.0 && result.0[RoleName(r)] == result.1
    ensures roles.Keys <= result.0.Keys && result.0.Values == roles.Values + {result.1}
  {
    match FindByUserRole(roles, r)
    case Some(id) => (roles, id)
    case None => (roles[RoleName(r) := newId], newId)
  }

  /** A second `getOrCreateRole` for the same constant saves nothing and
      returns the same role. */
  lemma GetOrCreateRoleIdempotent(roles: map<string, Uuid>, r: UserRole, id1: Uuid, id2: Uuid)
    ensures var (after, first) := GetOrCreateRole(roles, r, id1);
      GetOrCreateRole(after, r, id2) == (after, first)
  {
  }

  // ---------------------------------------------------------------------
  // The user service
  // ---------------------------------------------------------------------

  datatype UserError =
    | DuplicateUsername(username: string)
    | UserNotFound(id: Uuid)

  /** `createUser`: the username must be free; the stored hash is the
      encoded password and the role is the stored role of that name, created
      if needed. `newUser` and `newRole` are the ids the database
      generates. */
  function CreateUser(d: Directory, username: string, password: string, r: UserRole,
                      encode: string -> string, newUser: Uuid, newRole: Uuid): (result: Result<Directory, UserError>)
    requires newUser !in d.users
    requires newRole !in d.roles.Values
    ensures result.Failure? <==> UsernameTaken(d.users, username)
    ensures result.Failure? ==> result.error == DuplicateUsername(username)
    ensures result.Success? ==>
              var role := GetOrCreateRole(d.roles, r, newRole);
              result.value == Directory(role.0, d.users[newUser := Account(username, encode(password), role.1)])
    ensures result.Success? ==> result.value.roles[RoleName(r)] == result.value.users[newUser].role
    ensures Valid(d) && result.Success? ==> Valid(result.value)
  {
    if UsernameTaken(d.users, username) then Failure(DuplicateUsername(username))
    else
      var (roles, role) := GetOrCreateRole(d.roles, r, newRole);
      Success(Directory(roles, d.users[newUser := Account(username, encode(password), role)]))
  }

  /** The optional-field test `s != null && !s.isBlank()`. */
  predicate Given(s: Option<string>)
  {
    s.Some? && !JavaIsBlank(s.value)
  }

  /** `updateUser(id, username, password, role)`: each field that is given
      replaces the stored one, the others stay. A new username must not be
      another user's; re-submitting one's own name is allowed. A null role
      keeps the role. */
  function UpdateUser(d: Directory, id: Uuid, username: Option<string>, password: Option<string>,
                      r: Option<UserRole>, encode: string -> string, newRole: Uuid): (result: Result<Directory, UserError>)
    requires newRole !in d.roles.Values
    ensures id !in d.users ==> result == Failure(UserNotFound(id))
    ensures result.Success? <==>
              id in d.users
              && !(Given(username) && username.value != d.users[id].username && UsernameTaken(d.users, username.value))
    ensures result.Success? ==> id in result.value.users && result.value.users == d.users[id := result.value.users[id]]
    ensures result.Success? ==> result.value.users[id].username
                                == (if Given(username) then username.value else d.users[id].username)
    ensures result.Success? ==> result.value.users[id].passwordHash
                                == (if Given(password) then encode(password.value) else d.users[id].passwordHash)
    ensures result.Success? && r.None? ==> result.value.users[id].role == d.users[id].role && result.value.roles == d.roles
    ensures result.Success? && r.Some? ==>
              RoleName(r.value) in result.value.roles && result.value.roles[RoleName(r.value)] == result.value.users[id].role
    ensures result.Success? && r.Some? ==>
              var role := GetOrCreateRole(d.roles, r.value, newRole);
              result.value.roles == role.0 && result.value.users[id].role == role.1
    ensures Valid(d) && result.Success? ==> Valid(result.value)
  {
    if id !in d.users then Failure(UserNotFound(id))
    else
      var user := d.users[id];
      if Given(username) && user.username != username.value && UsernameTaken(d.users, username.value) then
        Failure(DuplicateUsername(username.value))
      else
        var named := if Given(username) then user.(username := username.value) else user;
        var hashed := if Given(password) then named.(passwordHash := encode(password.value)) else named;
        if r.None? then Success(d.(users := d.users[id := hashed]))
        else
          var (roles, role) := GetOrCreateRole(d.roles, r.value, newRole);
          Success(Directory(roles, d.users[id := hashed.(role := role)]))
  }

  /** `updateUser(id, username, password)`: the overload without a role
      behaves as the full update with a null role. */
  function UpdateCredentials(d: Directory, id: Uuid, username: Option<string>, password: Option<string>,
                             encode: string -> string): (result: Result<Directory, UserError>)
    ensures result.Success? ==> result.value.roles == d.roles
    ensures result.Success? ==> id in d.users && id in result.value.users && result.value.users[id].role == d.users[id].role
    ensures forall newRole: Uuid :: newRole !in d.roles.Values ==>
              result == UpdateUser(d, id, username, password, None, encode, newRole)
  {
    if id !in d.users then Failure(UserNotFound(id))
    else
      var user := d.users[id];
      if Given(username) && user.username != username.value && UsernameTaken(d.users, username.value) then
        Failure(DuplicateUsername(username.value))
      else
        var named := if Given(username) then user.(username := username.value) else user;
        var hashed := if Given(password) then named.(passwordHash := encode(password.value)) else named;
        Success(d.(users := d.users[id := hashed]))
  }

  /** Submitting nothing but blanks changes no user. */
  lemma UpdateWithNothingGiven(d: Directory, id: Uuid, encode: string -> string, newRole: Uuid)
    requires id in d.users && newRole !in d.roles.Values
    ensures UpdateUser(d, id, None, Some(""), None, encode, newRole) == Success(d)
  {
    assert d.users[id := d.users[id]] == d.users;
  }
}
