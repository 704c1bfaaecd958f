/** `AuthService`: login, the session check, and password reset by mailed
    token. `bcrypt.compare` is a function parameter, every hash and every
    random token is a parameter, and the signed JWT is its payload. */
module Auth {
  import opened Common
  import opened Schema
  import Users

  const ActiveStatus: string := "ACTIVE"

  /** What the token of a session carries. */
  datatype TokenPayload = TokenPayload(sub: string, email: string, roleId: string, roleName: string)

  /** The answer to a successful login. */
  datatype Session = Session(user: Users.PublicUser, payload: TokenPayload)

  /** `login(dto)`: unknown email and wrong password are both Unauthorized; an
      inactive account is refused before its password is compared. The user
      in the answer is the row as read, before `lastLogin` is written. */
  method Login(db: Db, email: string, password: string, matches: (string, string) -> bool, now: Instant)
    returns (r: Result<Session>)
    requires db.Valid()
    modifies db
    ensures db.Valid()
    ensures !Users.EmailInUse(old(db.users), email) ==> r == Err(Unauthorized) && unchanged(db)
    ensures forall id :: id in old(db.users) && old(db.users)[id].email == email ==>
      var u := old(db.users)[id];
      && (u.status != ActiveStatus ==> r == Err(BadRequest) && unchanged(db))
      && (u.status == ActiveStatus && !matches(password, u.password) ==> r == Err(Unauthorized) && unchanged(db))
      && (u.status == ActiveStatus && matches(password, u.password) ==>
            && r == Ok(Session(Users.FormatUser(u), TokenPayload(id, u.email, u.roleId, old(db.roles)[u.roleId].name)))
            && db.users == old(db.users)[id := u.(lastLogin := Some(now))])
    ensures r.Ok? ==> r.value.user.status == ToLower(ActiveStatus)
    ensures unchanged(db`casos, db`seguimientos, db`archivos, db`roles, db`sedes, db`dependencias, db`publicaciones)
  {
    if !Users.EmailInUse(db.users, email) {
      return Err(Unauthorized);
    }
    var id :| id in db.users && db.users[id].email == email;
    var u := db.users[id];
    if u.status != ActiveStatus {
      return Err(BadRequest);
    }
    if !matches(password, u.password) {
      return Err(Unauthorized);
    }
    Users.WriteUser(db, id, u.(lastLogin := Some(now)));
    r := Ok(Session(Users.FormatUser(u), TokenPayload(id, u.email, u.roleId, db.roles[u.roleId].name)));
  }

  /** `validateUser(userId)`: the session holder, without password, while the
      account is active. */
  function ValidateUser(users: map<string, User>, userId: string): (r: Option<Users.PublicUser>)
    ensures r.Some? <==> userId in users && users[userId].status == ActiveStatus
    ensures r.Some? ==> r.value == Users.WithoutPassword(users[userId])
  {
    if userId in users && users[userId].status == ActiveStatus then Some(Users.WithoutPassword(users[userId]))
    else None
  }

  /** A session holder is exactly a login answer with its status name
      unlowered. */
  lemma ValidatedUserMatchesLogin(users: map<string, User>, userId: string)
    requires ValidateUser(users, userId).Some?
    ensures ValidateUser(users, userId).value.(status := ToLower(ActiveStatus)) == Users.FormatUser(users[userId])
  {
  }

  const ResetMessage: string :=
    "Si el correo existe en nuestro sistema, recibirás instrucciones para restablecer tu contraseña."
  const ResetTokenLifetime: int := SecondsPerHour

  /** The reset mail handed to the mail service (fire and forget). */
  datatype ResetMail = ResetMail(email: string, name: string, token: string)

  /** The row after a reset token is issued at `now`. */
  function Issued(u: User, token: string, now: Instant): (v: User)
    ensures v.resetPasswordToken == Some(token) && v.resetPasswordExpires == Some(now + ResetTokenLifetime)
    ensures v.(resetPasswordToken := u.resetPasswordToken, resetPasswordExpires := u.resetPasswordExpires) == u
  {
    u.(resetPasswordToken := Some(token), resetPasswordExpires := Some(now + ResetTokenLifetime))
  }

  /** `requestPasswordReset(dto)`: the answer is the same whether the email is
      unknown, the account inactive, or a token issued, so it reveals nothing.
      `token` is `crypto.randomBytes(32)` in hex, which no user holds. */
  method RequestPasswordReset(db: Db, email: string, token: string, now: Instant)
    returns (message: string, mail: Option<ResetMail>)
    requires db.Valid()
    requires forall id :: id in db.users ==> db.users[id].resetPasswordToken != Some(token)
    modifies db
    ensures db.Valid()
    ensures message == ResetMessage
    ensures !Users.EmailInUse(old(db.users), email) ==> mail.None? && unchanged(db)
    ensures forall id :: id in old(db.users) && old(db.users)[id].email == email ==>
      var u := old(db.users)[id];
      && (u.status != ActiveStatus ==> mail.None? && unchanged(db))
      && (u.status == ActiveStatus ==>
            && db.users == old(db.users)[id := Issued(u, token, now)]
            && mail == Some(ResetMail(u.email, u.name, token)))
    ensures unchanged(db`casos, db`seguimientos, db`archivos, db`roles, db`sedes, db`dependencias, db`publicaciones)
  {
    message := ResetMessage;
    if !Users.EmailInUse(db.users, email) {
      return message, None;
    }
    var id :| id in db.users && db.users[id].email == email;
    var u := db.users[id];
    if u.status != ActiveStatus {
      return message, None;
    }
    Users.WriteUser(db, id, Issued(u, token, now));
    mail := Some(ResetMail(u.email, u.name, token));
  }

  /** The user holds `token` and it has not expired at `now`. */
  predicate TokenValidFor(u: User, token: string, now: Instant) {
    u.resetPasswordToken == Some(token) && u.resetPasswordExpires.Some? && u.resetPasswordExpires.value > now
  }

  /** Some user holds `token` unexpired: the `findFirst` of `validateResetToken`
      and `resetPassword`. */
  predicate TokenAccepted(users: map<string, User>, token: string, now: Instant) {
    exists id :: id in users && TokenValidFor(users[id], token, now)
  }

  /** `validateResetToken(token)` at `now`. */
  function ValidateResetToken(users: map<string, User>, token: string, now: Instant): (r: Result<()>)
    ensures r.Ok? <==> TokenAccepted(users, token, now)
    ensures r.Err? ==> r.error == BadRequest
  {
    if TokenAccepted(users, token, now) then Ok(()) else Err(BadRequest)
  }

  /** An issued token is accepted for exactly one hour: up to, not including,
      the instant an hour after it was issued. */
  lemma {:induction false} IssuedTokenLastsAnHour(u: User, token: string, issuedAt: Instant, now: Instant)
    ensures TokenValidFor(Issued(u, token, issuedAt), token, now) <==> now < issuedAt + SecondsPerHour
  {
    var v := Issued(u, token, issuedAt);
    assert v.resetPasswordExpires == Some(issuedAt + ResetTokenLifetime);
  }

  /** The row after a successful reset: the new hash, and no token. */
  function Cleared(u: User, hash: string): (v: User)
    ensures v.password == hash && v.resetPasswordToken.None? && v.resetPasswordExpires.None?
    ensures v.email == u.email && v.roleId == u.roleId && v.status == u.status
  {
    u.(password := hash, resetPasswordToken := None, resetPasswordExpires := None)
  }

  /** `resetPassword(dto)` at `now`; `hash` is the hash of the new password.
      After a reset the token is accepted at no time, so it cannot be reused. */
  method ResetPassword(db: Db, token: string, hash: string, now: Instant) returns (r: Result<()>)
    requires db.Valid()
    modifies db
    ensures db.Valid()
    ensures !TokenAccepted(old(db.users), token, now) ==> r == Err(BadRequest) && unchanged(db)
    ensures forall id :: id in old(db.users) && TokenValidFor(old(db.users)[id], token, now) ==>
      var u := old(db.users)[id];
      && (u.status != ActiveStatus ==> r == Err(BadRequest) && unchanged(db))
      && (u.status == ActiveStatus ==> r == Ok(()) && db.users == old(db.users)[id := Cleared(u, hash)])
    ensures r.Ok? ==> forall t :: ValidateResetToken(db.users, token, t).Err?
    ensures unchanged(db`casos, db`seguimientos, db`archivos, db`roles, db`sedes, db`dependencias, db`publicaciones)
  {
    if !TokenAccepted(db.users, token, now) {
      return Err(BadRequest);
    }
    var id :| id in db.users && TokenValidFor(db.users[id], token, now);
    var u := db.users[id];
    if u.status != ActiveStatus {
      return Err(BadRequest);
    }
    TokenHolderUnique(db, id, token, now);
    Users.WriteUser(db, id, Cleared(u, hash));
    TokenGone(db.users, id, token);
    r := Ok(());
  }

  /** Only one user holds a token. */
  lemma TokenHolderUnique(db: Db, id: string, token: string, now: Instant)
    requires db.ResetTokensUnique()
    requires id in db.users && TokenValidFor(db.users[id], token, now)
    ensures forall other :: other in db.users && TokenValidFor(db.users[other], token, now) ==> other == id
  {
  }

  /** Once its holder's token is cleared, a token is held by nobody. */
  lemma TokenGone(users: map<string, User>, id: string, token: string)
    requires id in users && users[id].resetPasswordToken.None?
    requires forall other :: other in users && other != id ==> users[other].resetPasswordToken != Some(token)
    ensures forall t :: !TokenAccepted(users, token, t)
  {
  }
}
