/** `UsersService`: accounts with a unique email, an optional identity
    document, a role, and profile columns. The password column only ever
    receives a bcrypt hash; hashing is salted, so every hash is a parameter,
    and `bcrypt.compare` is a function parameter. */
module Users {
  import opened Common
  import opened Schema
  import Roles

  /** A user as the service returns it: every column but the password. */
  datatype PublicUser = PublicUser(
    email: string,
    name: string,
    roleId: string,
    status: string,
    tipoDocumento: Option<string>,
    numeroDocumento: Option<string>,
    profile: Profile,
    lastLogin: Option<Instant>,
    resetPasswordToken: Option<string>,
    resetPasswordExpires: Option<Instant>)

  /** `const { password: _, ...rest } = user`. */
  function WithoutPassword(u: User): PublicUser {
    PublicUser(u.email, u.name, u.roleId, u.status, u.tipoDocumento, u.numeroDocumento, u.profile,
      u.lastLogin, u.resetPasswordToken, u.resetPasswordExpires)
  }

  /** Dropping the password loses nothing else: two users look the same
      without their passwords exactly when they differ in the password alone. */
  lemma WithoutPasswordLosesOnlyPassword(u: User, v: User)
    ensures WithoutPassword(u) == WithoutPassword(v) <==> u.(password := v.password) == v
  {
  }

  /** `formatUser(user)`: the row without its password, with the status name
      lowercased. */
  function FormatUser(u: User): (p: PublicUser)
    ensures p.status == ToLower(u.status) && ToLower(p.status) == p.status
    ensures p.(status := u.status) == WithoutPassword(u)
  {
    ToLowerIdempotent(u.status);
    WithoutPassword(u).(status := ToLower(u.status))
  }

  /** The password never shows in a formatted user. */
  lemma FormatUserIgnoresPassword(u: User, password: string)
    ensures FormatUser(u.(password := password)) == FormatUser(u)
  {
  }

  const DefaultStatus: string := "ACTIVE"

  /** The fields of `CreateUserDto`; the profile columns are `profile`. */
  datatype UserInput = UserInput(
    email: string,
    password: string,
    name: string,
    roleId: string,
    status: Option<string>,
    tipoDocumento: Option<string>,
    numeroDocumento: Option<string>,
    profile: Profile)

  /** The row `create` inserts; `hash` is the bcrypt hash of the password. */
  function NewUser(input: UserInput, hash: string): (u: User)
    ensures u.email == input.email && u.password == hash && u.roleId == input.roleId
    ensures u.status == input.status.GetOr(DefaultStatus)
    ensures u.lastLogin.None? && u.resetPasswordToken.None? && u.resetPasswordExpires.None?
  {
    User(input.email, hash, input.name, input.roleId, input.status.GetOr(DefaultStatus),
      input.tipoDocumento, input.numeroDocumento, input.profile, None, None, None)
  }

  predicate EmailInUse(users: map<string, User>, email: string) {
    exists id :: id in users && users[id].email == email
  }

  /** A user other than `except` holds the document (`tipo`, `numero`). */
  predicate DocumentInUse(users: map<string, User>, tipo: string, numero: string, except: Option<string>) {
    exists id :: id in users && Some(id) != except
      && users[id].tipoDocumento == Some(tipo) && users[id].numeroDocumento == Some(numero)
  }

  /** `create` checks the document only when both of its fields are given. */
  predicate DocumentClash(users: map<string, User>, tipo: Option<string>, numero: Option<string>) {
    Truthy(tipo) && Truthy(numero) && DocumentInUse(users, tipo.value, numero.value, None)
  }

  /** `create(dto)`; `id` is the generated key. */
  method Create(db: Db, id: string, input: UserInput, hash: string) returns (r: Result<PublicUser>)
    requires db.Valid()
    requires id !in db.users
    modifies db
    ensures db.Valid()
    ensures EmailInUse(old(db.users), input.email) ==> r == Err(Conflict) && unchanged(db)
    ensures !EmailInUse(old(db.users), input.email)
            && DocumentClash(old(db.users), input.tipoDocumento, input.numeroDocumento) ==>
      r == Err(Conflict) && unchanged(db)
    ensures !EmailInUse(old(db.users), input.email)
            && !DocumentClash(old(db.users), input.tipoDocumento, input.numeroDocumento)
            && input.roleId !in old(db.roles) ==>
      r == Err(NotFound) && unchanged(db)
    ensures r.Ok? <==>
      && !EmailInUse(old(db.users), input.email)
      && !DocumentClash(old(db.users), input.tipoDocumento, input.numeroDocumento)
      && input.roleId in old(db.roles)
    ensures r.Err? ==> unchanged(db)
    ensures r.Ok? ==>
      && db.users == old(db.users)[id := NewUser(input, hash)]
      && r.value == FormatUser(NewUser(input, hash))
      && db.roles == old(db.roles)[input.roleId :=
           old(db.roles)[input.roleId].(usersCount := CountUsersWithRole(db.users, input.roleId))]
      && Roles.CountAccurate(db, input.roleId)
    ensures unchanged(db`casos, db`seguimientos, db`archivos, db`sedes, db`dependencias, db`publicaciones)
  {
    if EmailInUse(db.users, input.email) {
      return Err(Conflict);
    }
    if DocumentClash(db.users, input.tipoDocumento, input.numeroDocumento) {
      return Err(Conflict);
    }
    if input.roleId !in db.roles {
      return Err(NotFound);
    }
    var user := NewUser(input, hash);
    db.users := db.users[id := user];
    var counted := Roles.UpdateUsersCount(db, input.roleId);
    r := Ok(FormatUser(user));
  }

  /** The fields of `UpdateUserDto`; `None` leaves a column as it is. */
  datatype UserChanges = UserChanges(
    email: Option<string>,
    password: Option<string>,
    name: Option<string>,
    roleId: Option<string>,
    status: Option<string>,
    tipoDocumento: Option<string>,
    numeroDocumento: Option<string>,
    profile: Profile)

  function Override(change: Option<string>, current: Option<string>): (r: Option<string>)
    ensures change.Some? ==> r == change
    ensures change.None? ==> r == current
  {
    if change.Some? then change else current
  }

  function ApplyProfile(p: Profile, c: Profile): Profile {
    Profile(Override(c.phone, p.phone), Override(c.avatar, p.avatar), Override(c.fechaNacimiento, p.fechaNacimiento),
      Override(c.direccion, p.direccion), Override(c.cargo, p.cargo), Override(c.sedeId, p.sedeId),
      Override(c.dependenciaId, p.dependenciaId))
  }

  /** The row after the write of `update`; `hash` is the hash of the new password. */
  function ApplyChanges(u: User, c: UserChanges, hash: string): (v: User)
    ensures v.email == c.email.GetOr(u.email) && v.roleId == c.roleId.GetOr(u.roleId)
    ensures v.password == (if Truthy(c.password) then hash else u.password)
    ensures v.tipoDocumento == Override(c.tipoDocumento, u.tipoDocumento)
    ensures v.numeroDocumento == Override(c.numeroDocumento, u.numeroDocumento)
    ensures v.lastLogin == u.lastLogin && v.resetPasswordToken == u.resetPasswordToken
    ensures v.resetPasswordExpires == u.resetPasswordExpires
  {
    User(c.email.GetOr(u.email), if Truthy(c.password) then hash else u.password, c.name.GetOr(u.name),
      c.roleId.GetOr(u.roleId), c.status.GetOr(u.status), Override(c.tipoDocumento, u.tipoDocumento),
      Override(c.numeroDocumento, u.numeroDocumento), ApplyProfile(u.profile, c.profile),
      u.lastLogin, u.resetPasswordToken, u.resetPasswordExpires)
  }

  /** The refusals of `update`, in the order the service checks them. The
      document is checked as it will be after the write, only when the
      request touches it, and never against the user itself. */
  function UpdateRefusal(users: map<string, User>, roles: map<string, Role>, id: string, c: UserChanges)
    : (r: Option<Error>)
    ensures r.None? ==> id in users
    ensures r.Some? ==> r.value in {NotFound, Conflict}
  {
    if id !in users then Some(NotFound)
    else
      var u := users[id];
      var tipo := Override(c.tipoDocumento, u.tipoDocumento);
      var numero := Override(c.numeroDocumento, u.numeroDocumento);
      if Truthy(c.email) && c.email.value != u.email && EmailInUse(users, c.email.value) then Some(Conflict)
      else if Truthy(tipo) && Truthy(numero) && (c.tipoDocumento.Some? || c.numeroDocumento.Some?)
              && DocumentInUse(users, tipo.value, numero.value, Some(id)) then Some(Conflict)
      else if Truthy(c.roleId) && c.roleId.value !in roles then Some(NotFound)
      else None
  }

  /** Changing only the number still checks the resulting document against
      the other users. */
  lemma UpdateChecksResultingDocument(users: map<string, User>, roles: map<string, Role>, id: string,
                                      c: UserChanges, other: string)
    requires id in users && other in users && other != id
    requires !(Truthy(c.email) && c.email.value != users[id].email && EmailInUse(users, c.email.value))
    requires c.tipoDocumento.None? && Truthy(users[id].tipoDocumento) && Truthy(c.numeroDocumento)
    requires users[other].tipoDocumento == users[id].tipoDocumento
    requires users[other].numeroDocumento == c.numeroDocumento
    ensures UpdateRefusal(users, roles, id, c) == Some(Conflict)
  {
    assert DocumentInUse(users, users[id].tipoDocumento.value, c.numeroDocumento.value, Some(id));
  }

  /** The role of the user changes. */
  predicate MovesRole(u: User, c: UserChanges) {
    Truthy(c.roleId) && c.roleId.value != u.roleId
  }

  /** What the DTO validation guarantees about an update request. */
  predicate WellFormed(c: UserChanges) {
    && (c.email.Some? ==> c.email.value != "")
    && (c.roleId.Some? ==> c.roleId.value != "")
    && (c.password.Some? ==> |c.password.value| >= 6)
  }

  /** `update(id, dto)` as written: when the role changes, both roles are
      recounted before the user row is written, so both counts miss the move. */
  method Update(db: Db, id: string, c: UserChanges, hash: string) returns (r: Result<PublicUser>)
    requires db.Valid()
    requires WellFormed(c)
    modifies db
    ensures db.Valid()
    ensures r.Err? <==> UpdateRefusal(old(db.users), old(db.roles), id, c).Some?
    ensures r.Err? ==> r.error == UpdateRefusal(old(db.users), old(db.roles), id, c).value && unchanged(db)
    ensures r.Ok? ==>
      && db.users == old(db.users)[id := ApplyChanges(old(db.users)[id], c, hash)]
      && r.value == FormatUser(db.users[id])
    ensures r.Ok? && !MovesRole(old(db.users)[id], c) ==> db.roles == old(db.roles)
    ensures r.Ok? && MovesRole(old(db.users)[id], c) ==>
      var before := old(db.users)[id].roleId;
      var after := c.roleId.value;
      && db.roles == old(db.roles)
           [before := old(db.roles)[before].(usersCount := CountUsersWithRole(old(db.users), before))]
           [after := old(db.roles)[after].(usersCount := CountUsersWithRole(old(db.users), after))]
      && !Roles.CountAccurate(db, before) && !Roles.CountAccurate(db, after)
    ensures unchanged(db`casos, db`seguimientos, db`archivos, db`sedes, db`dependencias, db`publicaciones)
  {
    var refusal := UpdateRefusal(db.users, db.roles, id, c);
    if refusal.Some? {
      return Err(refusal.value);
    }
    var u := db.users[id];
    var v := ApplyChanges(u, c, hash);
    EmailStaysUnique(db.users, id, c, hash);
    if MovesRole(u, c) {
      RecountRoles(db, u.roleId, c.roleId.value);
      RoleMoveShiftsCounts(db.users, id, v);
    }
    WriteUser(db, id, v);
    r := Ok(FormatUser(v));
  }

  /** The corrected `update`: the row is written first and the two roles
      are recounted afterwards, so both counts are accurate. */
  method UpdateRecountingAfterWrite(db: Db, id: string, c: UserChanges, hash: string) returns (r: Result<PublicUser>)
    requires db.Valid()
    requires WellFormed(c)
    modifies db
    ensures db.Valid()
    ensures r.Err? <==> UpdateRefusal(old(db.users), old(db.roles), id, c).Some?
    ensures r.Err? ==> r.error == UpdateRefusal(old(db.users), old(db.roles), id, c).value && unchanged(db)
    ensures r.Ok? ==>
      && db.users == old(db.users)[id := ApplyChanges(old(db.users)[id], c, hash)]
      && r.value == FormatUser(db.users[id])
    ensures r.Ok? && !MovesRole(old(db.users)[id], c) ==> db.roles == old(db.roles)
    ensures r.Ok? && MovesRole(old(db.users)[id], c) ==>
      && db.roles.Keys == old(db.roles).Keys
      && Roles.CountAccurate(db, old(db.users)[id].roleId) && Roles.CountAccurate(db, c.roleId.value)
    ensures unchanged(db`casos, db`seguimientos, db`archivos, db`sedes, db`dependencias, db`publicaciones)
  {
    var refusal := UpdateRefusal(db.users, db.roles, id, c);
    if refusal.Some? {
      return Err(refusal.value);
    }
    var u := db.users[id];
    var v := ApplyChanges(u, c, hash);
    EmailStaysUnique(db.users, id, c, hash);
    WriteUser(db, id, v);
    if MovesRole(u, c) {
      RecountRoles(db, u.roleId, c.roleId.value);
    }
    r := Ok(FormatUser(v));
  }

  /** The two `updateRoleUsersCount` calls of `update`: the role a user
      leaves and the role it joins are recounted, in that order. */
  method RecountRoles(db: Db, before: string, after: string)
    requires db.Valid()
    requires before in db.roles && after in db.roles && before != after
    modifies db
    ensures db.Valid()
    ensures db.roles == old(db.roles)
      [before := old(db.roles)[before].(usersCount := CountUsersWithRole(db.users, before))]
      [after := old(db.roles)[after].(usersCount := CountUsersWithRole(db.users, after))]
    ensures Roles.CountAccurate(db, before) && Roles.CountAccurate(db, after)
    ensures unchanged(db`casos, db`seguimientos, db`archivos, db`users, db`sedes, db`dependencias, db`publicaciones)
  {
    var countedBefore := Roles.UpdateUsersCount(db, before);
    var countedAfter := Roles.UpdateUsersCount(db, after);
  }

  /** `user.update({ where: { id }, data })` for a row whose new email is
      unused by the others, whose role exists, and whose reset token stays,
      goes, or is held by no other user. */
  method WriteUser(db: Db, id: string, v: User)
    requires db.Valid()
    requires id in db.users
    requires v.roleId in db.roles
    requires forall other :: other in db.users && other != id ==> db.users[other].email != v.email
    requires || v.resetPasswordToken == db.users[id].resetPasswordToken
             || v.resetPasswordToken.None?
             || forall other :: other in db.users && other != id ==>
                  db.users[other].resetPasswordToken != v.resetPasswordToken
    modifies db
    ensures db.Valid()
    ensures db.users == old(db.users)[id := v]
    ensures unchanged(db`casos, db`seguimientos, db`archivos, db`roles, db`sedes, db`dependencias, db`publicaciones)
  {
    ghost var before := db.users;
    db.users := db.users[id := v];
    assert db.ResetTokensUnique() by {
      forall a, b | a in db.users && b in db.users && a != b && db.users[a].resetPasswordToken.Some?
        ensures db.users[a].resetPasswordToken != db.users[b].resetPasswordToken
      {
        if a != id && b != id { assert before[a] == db.users[a] && before[b] == db.users[b]; }
      }
    }
  }

  /** An update that passes the guards keeps emails unique. */
  lemma EmailStaysUnique(users: map<string, User>, id: string, c: UserChanges, hash: string)
    requires id in users
    requires forall a, b :: a in users && b in users && a != b ==> users[a].email != users[b].email
    requires c.email.Some? ==> c.email.value != ""
    requires !(Truthy(c.email) && c.email.value != users[id].email && EmailInUse(users, c.email.value))
    ensures forall other :: other in users && other != id ==>
      users[other].email != ApplyChanges(users[id], c, hash).email
  {
    forall other | other in users && other != id
      ensures users[other].email != ApplyChanges(users[id], c, hash).email
    {
      if c.email.Some? && c.email.value != users[id].email {
        assert !EmailInUse(users, c.email.value);
      }
    }
  }

  /** Moving one user from one role to another adds one to the count of the
      new role and takes one from the count of the old. */
  lemma {:induction false} RoleMoveShiftsCounts(users: map<string, User>, id: string, v: User)
    requires id in users && users[id].roleId != v.roleId
    ensures CountUsersWithRole(users[id := v], v.roleId) == CountUsersWithRole(users, v.roleId) + 1
    ensures CountUsersWithRole(users[id := v], users[id].roleId) + 1 == CountUsersWithRole(users, users[id].roleId)
  {
    var after := users[id := v];
    var gain := set u | u in users && users[u].roleId == v.roleId;
    assert (set u | u in after && after[u].roleId == v.roleId) == gain + {id};
    var ro := users[id].roleId;
    var lose := set u | u in users && users[u].roleId == ro;
    assert lose == (set u | u in after && after[u].roleId == ro) + {id};
  }

  /** `remove(id)`: refused while the user has cases assigned. The role's
      cached count is not refreshed. */
  method Remove(db: Db, id: string) returns (r: Result<()>)
    requires db.Valid()
    modifies db
    ensures db.Valid()
    ensures id !in old(db.users) ==> r == Err(NotFound) && unchanged(db)
    ensures id in old(db.users) && CountAssigned(old(db.casos), id) > 0 ==> r == Err(BadRequest) && unchanged(db)
    ensures id in old(db.users) && CountAssigned(old(db.casos), id) == 0 ==>
      r == Ok(()) && db.users == old(db.users) - {id}
    ensures unchanged(db`casos, db`seguimientos, db`archivos, db`roles, db`sedes, db`dependencias, db`publicaciones)
  {
    if id !in db.users {
      return Err(NotFound);
    }
    if CountAssigned(db.casos, id) > 0 {
      return Err(BadRequest);
    }
    db.users := db.users - {id};
    r := Ok(());
  }

  /** The fields of `UpdateProfileDto`: no email, password, role, status or avatar. */
  datatype ProfileChanges = ProfileChanges(
    name: Option<string>,
    phone: Option<string>,
    tipoDocumento: Option<string>,
    numeroDocumento: Option<string>,
    fechaNacimiento: Option<string>,
    direccion: Option<string>,
    cargo: Option<string>,
    sedeId: Option<string>,
    dependenciaId: Option<string>)

  function AsUserChanges(p: ProfileChanges): (c: UserChanges)
    ensures c.email.None? && c.password.None? && c.roleId.None? && c.status.None? && c.profile.avatar.None?
  {
    UserChanges(None, None, p.name, None, None, p.tipoDocumento, p.numeroDocumento,
      Profile(p.phone, None, p.fechaNacimiento, p.direccion, p.cargo, p.sedeId, p.dependenciaId))
  }

  /** The refusals of `updateProfile`, in order. Unlike `update`, the
      document is checked only when the request gives both of its fields. */
  function ProfileRefusal(db: Db, userId: string, p: ProfileChanges): (r: Option<Error>)
    reads db
    ensures r.None? ==> userId in db.users
    ensures !(Truthy(p.tipoDocumento) && Truthy(p.numeroDocumento)) ==> r != Some(Conflict)
  {
    if userId !in db.users then Some(NotFound)
    else if Truthy(p.numeroDocumento) && Truthy(p.tipoDocumento)
            && DocumentInUse(db.users, p.tipoDocumento.value, p.numeroDocumento.value, Some(userId)) then Some(Conflict)
    else if Truthy(p.sedeId) && p.sedeId.value !in db.sedes then Some(NotFound)
    else if Truthy(p.dependenciaId) && p.dependenciaId.value !in db.dependencias then Some(NotFound)
    else None
  }

  /** `updateProfile(userId, dto)`: only the user's own name, document and
      profile columns change. */
  method UpdateProfile(db: Db, userId: string, p: ProfileChanges) returns (r: Result<PublicUser>)
    requires db.Valid()
    modifies db
    ensures db.Valid()
    ensures r.Err? <==> old(ProfileRefusal(db, userId, p)).Some?
    ensures r.Err? ==> r.error == old(ProfileRefusal(db, userId, p)).value && unchanged(db)
    ensures r.Ok? ==>
      var u := old(db.users)[userId];
      && db.users == old(db.users)[userId := ApplyChanges(u, AsUserChanges(p), u.password)]
      && db.users[userId].email == u.email && db.users[userId].password == u.password
      && db.users[userId].roleId == u.roleId && db.users[userId].status == u.status
      && r.value == FormatUser(db.users[userId])
    ensures unchanged(db`casos, db`seguimientos, db`archivos, db`roles, db`sedes, db`dependencias, db`publicaciones)
  {
    var refusal := ProfileRefusal(db, userId, p);
    if refusal.Some? {
      return Err(refusal.value);
    }
    var u := db.users[userId];
    var v := ApplyChanges(u, AsUserChanges(p), u.password);
    WriteUser(db, userId, v);
    r := Ok(FormatUser(v));
  }

  /** `changePassword(userId, dto)`: `matches` is `bcrypt.compare` and `hash`
      the hash of the new password. */
  method ChangePassword(db: Db, userId: string, oldPassword: string, hash: string, matches: (string, string) -> bool)
    returns (r: Result<()>)
    requires db.Valid()
    modifies db
    ensures db.Valid()
    ensures userId !in old(db.users) ==> r == Err(NotFound) && unchanged(db)
    ensures userId in old(db.users) && !matches(oldPassword, old(db.users)[userId].password) ==>
      r == Err(Unauthorized) && unchanged(db)
    ensures userId in old(db.users) && matches(oldPassword, old(db.users)[userId].password) ==>
      r == Ok(()) && db.users == old(db.users)[userId := old(db.users)[userId].(password := hash)]
    ensures unchanged(db`casos, db`seguimientos, db`archivos, db`roles, db`sedes, db`dependencias, db`publicaciones)
  {
    if userId !in db.users {
      return Err(NotFound);
    }
    var u := db.users[userId];
    if !matches(oldPassword, u.password) {
      return Err(Unauthorized);
    }
    WriteUser(db, userId, u.(password := hash));
    r := Ok(());
  }
}
