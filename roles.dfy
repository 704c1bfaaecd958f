/** `RolesService`: named permission sets. Names are a unique column; a
    system role or a role that still has users cannot be deleted; the cached
    `usersCount` is rewritten on demand. */
module Roles {
  import opened Common
  import opened Schema

  /** The fields of `CreateRoleDto`. */
  datatype RoleInput = RoleInput(
    name: string,
    description: Option<string>,
    permissions: Option<Permissions>,
    isSystem: Option<bool>)

  /** The fields of `UpdateRoleDto`; `None` leaves a column as it is. */
  datatype RoleChanges = RoleChanges(
    name: Option<string>,
    description: Option<string>,
    permissions: Option<Permissions>,
    isSystem: Option<bool>)

  /** Some stored role already carries this name. */
  predicate NameInUse(roles: map<string, Role>, name: string) {
    exists id :: id in roles && roles[id].name == name
  }

  /** A role other than `id` carries this name. */
  predicate NameTakenByOther(roles: map<string, Role>, id: string, name: string) {
    exists other :: other in roles && other != id && roles[other].name == name
  }

  /** The cached count of a role agrees with the user table. */
  ghost predicate CountAccurate(db: Db, roleId: string)
    reads db
  {
    roleId in db.roles && db.roles[roleId].usersCount == CountUsersWithRole(db.users, roleId)
  }

  /** The row `create` inserts: permissions default to none, a role is not a
      system role unless said so, and it starts with no users. */
  function NewRole(input: RoleInput): (role: Role)
    ensures role.name == input.name && role.description == input.description
    ensures role.permissions == input.permissions.GetOr(map[])
    ensures role.isSystem == input.isSystem.GetOr(false)
    ensures role.usersCount == 0
  {
    Role(input.name, input.description, input.permissions.GetOr(map[]), input.isSystem.GetOr(false), 0)
  }

  function Apply(role: Role, c: RoleChanges): (r: Role)
    ensures r.usersCount == role.usersCount
    ensures c.name.None? ==> r.name == role.name
    ensures c.name.Some? ==> r.name == c.name.value
  {
    Role(c.name.GetOr(role.name), if c.description.Some? then c.description else role.description,
      c.permissions.GetOr(role.permissions), c.isSystem.GetOr(role.isSystem), role.usersCount)
  }

  /** No user refers to a role id that is not stored, so a fresh role has no users. */
  lemma {:induction false} FreshRoleHasNoUsers(db: Db, id: string)
    requires db.UsersReferToRoles()
    requires id !in db.roles
    ensures CountUsersWithRole(db.users, id) == 0
  {
  }

  /** `create(dto)`; `id` is the generated key. */
  method Create(db: Db, id: string, input: RoleInput) returns (r: Result<Role>)
    requires db.Valid()
    requires id !in db.roles
    modifies db
    ensures db.Valid()
    ensures NameInUse(old(db.roles), input.name) ==> r == Err(Conflict) && unchanged(db)
    ensures !NameInUse(old(db.roles), input.name) ==>
      r == Ok(NewRole(input)) && db.roles == old(db.roles)[id := NewRole(input)]
    ensures r.Ok? ==> CountAccurate(db, id)
    ensures unchanged(db`casos, db`seguimientos, db`archivos, db`users, db`sedes, db`dependencias, db`publicaciones)
  {
    if NameInUse(db.roles, input.name) {
      return Err(Conflict);
    }
    FreshRoleHasNoUsers(db, id);
    db.roles := db.roles[id := NewRole(input)];
    r := Ok(NewRole(input));
  }

  /** `findOne(id)`. */
  function FindOne(roles: map<string, Role>, id: string): (r: Result<Role>)
    ensures r.Ok? <==> id in roles
    ensures r.Ok? ==> r.value == roles[id]
    ensures r.Err? ==> r.error == NotFound
  {
    if id in roles then Ok(roles[id]) else Err(NotFound)
  }

  /** `update(id, dto)`. The service checks a new name only when it is
      non-empty and differs from the current one; an empty name that another
      role already has is refused by the unique column instead. */
  method Update(db: Db, id: string, c: RoleChanges) returns (r: Result<Role>)
    requires db.Valid()
    modifies db
    ensures db.Valid()
    ensures id !in old(db.roles) ==> r == Err(NotFound) && unchanged(db)
    ensures (id in old(db.roles) && Truthy(c.name) && c.name.value != old(db.roles)[id].name
             && NameInUse(old(db.roles), c.name.value)) ==> r == Err(Conflict) && unchanged(db)
    ensures r.Ok? <==>
      && id in old(db.roles)
      && !(Truthy(c.name) && c.name.value != old(db.roles)[id].name && NameInUse(old(db.roles), c.name.value))
      && !NameTakenByOther(old(db.roles), id, Apply(old(db.roles)[id], c).name)
    ensures r.Err? ==> unchanged(db)
    ensures r.Ok? ==> r.value == Apply(old(db.roles)[id], c) && db.roles == old(db.roles)[id := r.value]
    ensures unchanged(db`casos, db`seguimientos, db`archivos, db`users, db`sedes, db`dependencias, db`publicaciones)
  {
    if id !in db.roles {
      return Err(NotFound);
    }
    var existing := db.roles[id];
    if Truthy(c.name) && c.name.value != existing.name && NameInUse(db.roles, c.name.value) {
      return Err(Conflict);
    }
    var role := Apply(existing, c);
    if NameTakenByOther(db.roles, id, role.name) {
      return Err(UniqueViolation);
    }
    db.roles := db.roles[id := role];
    r := Ok(role);
  }

  /** The unique column only ever refuses an update whose new name is empty:
      every other clash is caught by the service's own check. */
  lemma UniqueViolationNeedsEmptyName(roles: map<string, Role>, id: string, c: RoleChanges)
    requires id in roles
    requires forall a, b :: a in roles && b in roles && a != b ==> roles[a].name != roles[b].name
    requires !(Truthy(c.name) && c.name.value != roles[id].name && NameInUse(roles, c.name.value))
    requires NameTakenByOther(roles, id, Apply(roles[id], c).name)
    ensures c.name == Some("")
  {
    var other :| other in roles && other != id && roles[other].name == Apply(roles[id], c).name;
    assert NameInUse(roles, Apply(roles[id], c).name);
  }

  /** Why `remove` refuses a role. */
  datatype Refusal = SystemRole | HasUsers(count: nat)

  /** The refusals of `remove`, in the order the service checks them. */
  function RemoveRefusal(role: Role, users: nat): (r: Option<Refusal>)
    ensures role.isSystem ==> r == Some(SystemRole)
    ensures !role.isSystem && users > 0 ==> r == Some(HasUsers(users))
    ensures r.None? <==> !role.isSystem && users == 0
  {
    if role.isSystem then Some(SystemRole)
    else if users > 0 then Some(HasUsers(users))
    else None
  }

  /** `remove(id)`. */
  method Remove(db: Db, id: string) returns (r: Result<()>)
    requires db.Valid()
    modifies db
    ensures db.Valid()
    ensures id !in old(db.roles) ==> r == Err(NotFound) && unchanged(db)
    ensures id in old(db.roles) && RemoveRefusal(old(db.roles)[id], CountUsersWithRole(old(db.users), id)).Some? ==>
      r == Err(BadRequest) && unchanged(db)
    ensures id in old(db.roles) && RemoveRefusal(old(db.roles)[id], CountUsersWithRole(old(db.users), id)).None? ==>
      r == Ok(()) && db.roles == old(db.roles) - {id}
    ensures unchanged(db`casos, db`seguimientos, db`archivos, db`users, db`sedes, db`dependencias, db`publicaciones)
  {
    if id !in db.roles {
      return Err(NotFound);
    }
    var count := CountUsersWithRole(db.users, id);
    if RemoveRefusal(db.roles[id], count).Some? {
      return Err(BadRequest);
    }
    NoUsersLeft(db.users, id);
    db.roles := db.roles - {id};
    r := Ok(());
  }

  /** A role counted with no users is referenced by no user. */
  lemma NoUsersLeft(users: map<string, User>, roleId: string)
    requires CountUsersWithRole(users, roleId) == 0
    ensures forall u :: u in users ==> users[u].roleId != roleId
  {
    var s := set v | v in users && users[v].roleId == roleId;
    assert s == {};
    forall u | u in users
      ensures users[u].roleId != roleId
    {
      assert u !in s;
    }
  }

  /** `updatePermissions(id, dto)`: only the permissions change. */
  method UpdatePermissions(db: Db, id: string, permissions: Permissions) returns (r: Result<Role>)
    requires db.Valid()
    modifies db
    ensures db.Valid()
    ensures id !in old(db.roles) ==> r == Err(NotFound) && unchanged(db)
    ensures id in old(db.roles) ==>
      && r == Ok(old(db.roles)[id].(permissions := permissions))
      && db.roles == old(db.roles)[id := r.value]
    ensures unchanged(db`casos, db`seguimientos, db`archivos, db`users, db`sedes, db`dependencias, db`publicaciones)
  {
    if id !in db.roles {
      return Err(NotFound);
    }
    var role := db.roles[id].(permissions := permissions);
    db.roles := db.roles[id := role];
    r := Ok(role);
  }

  /** `updateUsersCount(roleId)`, and the private `updateRoleUsersCount` of the
      user service, which does the same: count the users of the role and
      store the count. Updating a role that does not exist fails. */
  method UpdateUsersCount(db: Db, roleId: string) returns (r: Result<nat>)
    requires db.Valid()
    modifies db
    ensures db.Valid()
    ensures roleId !in old(db.roles) ==> r == Err(NotFound) && unchanged(db)
    ensures roleId in old(db.roles) ==>
      && r == Ok(CountUsersWithRole(db.users, roleId))
      && db.roles == old(db.roles)[roleId := old(db.roles)[roleId].(usersCount := r.value)]
    ensures roleId in old(db.roles) ==> CountAccurate(db, roleId)
    ensures unchanged(db`casos, db`seguimientos, db`archivos, db`users, db`sedes, db`dependencias, db`publicaciones)
  {
    if roleId !in db.roles {
      return Err(NotFound);
    }
    var count := CountUsersWithRole(db.users, roleId);
    db.roles := db.roles[roleId := db.roles[roleId].(usersCount := count)];
    r := Ok(count);
  }
}
