/// The account handlers of `server/routes/auth.js`: register, login, email
/// verification, and the forgot/reset password pair, as methods that read and
/// update the `users` table of the `Database` in the order the handlers run
/// their queries. Each method is proved to do what a function on the tables
/// says; the lemmas below state what those functions guarantee.
///
/// bcrypt, JWT signing, the random tokens, the mailer and the clock are
/// parameters: `Services` bundles the first three, `token` is the random hex
/// string a call draws, `now` is the time in milliseconds.
module AuthRoutes {
  import opened Common
  import opened Store
  import opened AuthMiddleware

  const EmailTaken: string := "Email já cadastrado"
  const Registered: string := "Usuário criado com sucesso. Verifique seu email."
  const BadCredentials: string := "Email ou senha inválidos"
  const LoggedIn: string := "Login realizado com sucesso"
  const EmailConfirmed: string := "Email verificado com sucesso"
  const ResetInstructions: string := "Se o email estiver cadastrado, você receberá as instruções de recuperação"
  const PasswordChanged: string := "Senha alterada com sucesso"

  /** A reset token is valid for one hour, in milliseconds. */
  const ResetWindow: int := 3600000

  /** bcrypt's hash and compare, JWT signing with the server's secret, and
      whether the mailer throws. */
  datatype Services = Services(
    hash: string -> string,
    compare: (string, string) -> bool,
    sign: Claims -> string,
    mailFails: bool)

  datatype RegisterBody = RegisterBody(
    email: string,
    password: string,
    firstName: string,
    lastName: string,
    userType: string,
    phone: Option<string>)

  /** The validators of POST /register that the model checks: a password of
      six characters or more, names of two characters or more once trimmed,
      and a known user type. */
  predicate RegisterBodyValid(b: RegisterBody) {
    && |b.password| >= 6
    && |Trim(b.firstName)| >= 2
    && |Trim(b.lastName)| >= 2
    && b.userType in {"client", "mechanic"}
  }

  function UserWithEmail(users: seq<User>, email: string): Option<User> {
    Find(users, (u: User) => u.email == email)
  }

  // ---------------------------------------------------------------------------
  // The handlers, as functions on the tables

  /** POST /register: a new unverified user holding a verification token, and
      a JWT for it; an email already registered is refused with 400. */
  function RegisterOutcome(db: Db, b: RegisterBody, svc: Services, token: string): (Db, Reply, Option<string>) {
    if !RegisterBodyValid(b) then (db, InvalidBody, None)
    else if UserWithEmail(db.users, b.email).Some? then (db, Refused(400, EmailTaken), None)
    else
      var user := User(db.serial, b.email, Some(svc.hash(b.password)), Trim(b.firstName), Trim(b.lastName),
                       b.userType, b.phone, false, Some(token), None, None);
      var after := db.(users := db.users + [user], serial := db.serial + 1);
      if svc.mailFails then (after, Refused(500, ServerError), None)
      else (after, Done(201, Registered), Some(svc.sign(Claims(user.id, user.userType))))
  }

  /** POST /login: 400 for an empty password before any lookup, then the
      same 401 for an unknown email and a wrong password, then a 401 asking
      for verification, then a JWT. A user created without a password makes
      bcrypt throw. */
  function LoginOutcome(db: Db, email: string, password: string, svc: Services): (Reply, Option<string>) {
    if password == "" then (InvalidBody, None)
    else
    match UserWithEmail(db.users, email)
    case None => (Refused(401, BadCredentials), None)
    case Some(user) =>
      if user.passwordHash.None? then (Refused(500, ServerError), None)
      else if !svc.compare(password, user.passwordHash.value) then (Refused(401, BadCredentials), None)
      else if !user.emailVerified then (NeedsVerification, None)
      else (Done(200, LoggedIn), Some(svc.sign(Claims(user.id, user.userType))))
  }

  /** `UPDATE users SET email_verified = TRUE, email_verification_token = NULL
      WHERE email_verification_token = $1`. */
  function ConfirmEmails(users: seq<User>, token: string): (r: seq<User>)
    ensures |r| == |users|
    ensures forall i :: 0 <= i < |users| ==> r[i].id == users[i].id && r[i].email == users[i].email
  {
    seq(|users|, i requires 0 <= i < |users| =>
      if users[i].verificationToken == Some(token) then users[i].(emailVerified := true, verificationToken := None)
      else users[i])
  }

  predicate HoldsVerificationToken(u: User, token: string) {
    u.verificationToken == Some(token)
  }

  /** GET /verify-email/:token: 400 unless some user holds the token. */
  function VerifyEmailOutcome(db: Db, token: string): (Db, Reply) {
    if Find(db.users, (u: User) => HoldsVerificationToken(u, token)).None? then (db, Refused(400, TokenInvalid))
    else (db.(users := ConfirmEmails(db.users, token)), Done(200, EmailConfirmed))
  }

  /** `UPDATE users SET password_reset_token = $1, password_reset_expires = $2 WHERE id = $3`. */
  function SetResetToken(users: seq<User>, id: nat, token: string, expires: int): (r: seq<User>)
    ensures |r| == |users|
    ensures forall i :: 0 <= i < |users| ==> r[i].id == users[i].id && r[i].email == users[i].email
  {
    seq(|users|, i requires 0 <= i < |users| =>
      if users[i].id == id then users[i].(resetToken := Some(token), resetExpires := Some(expires)) else users[i])
  }

  /** POST /forgot-password: the same answer whether or not the email is
      registered; a registered user gets a token valid for one hour. */
  function ForgotPasswordOutcome(db: Db, email: string, svc: Services, token: string, now: int): (Db, Reply) {
    match UserWithEmail(db.users, email)
    case None => (db, Done(200, ResetInstructions))
    case Some(user) =>
      var after := db.(users := SetResetToken(db.users, user.id, token, now + ResetWindow));
      if svc.mailFails then (after, Refused(500, ServerError)) else (after, Done(200, ResetInstructions))
  }

  /** The user holds `token` as a reset token that expires strictly after `now`. */
  predicate HoldsLiveResetToken(u: User, token: string, now: int) {
    u.resetToken == Some(token) && u.resetExpires.Some? && u.resetExpires.value > now
  }

  /** `UPDATE users SET password_hash = $1, password_reset_token = NULL,
      password_reset_expires = NULL WHERE id = $2`. */
  function ReplacePassword(users: seq<User>, id: nat, hash: string): (r: seq<User>)
    ensures |r| == |users|
    ensures forall i :: 0 <= i < |users| ==> r[i].id == users[i].id && r[i].email == users[i].email
  {
    seq(|users|, i requires 0 <= i < |users| =>
      if users[i].id == id then users[i].(passwordHash := Some(hash), resetToken := None, resetExpires := None) else users[i])
  }

  /** POST /reset-password: 400 unless a user holds the token unexpired; then
      the password is replaced and the token spent. */
  function ResetPasswordOutcome(db: Db, token: string, password: string, svc: Services, now: int): (Db, Reply) {
    if token == "" || |password| < 6 then (db, InvalidBody)
    else
      match Find(db.users, (u: User) => HoldsLiveResetToken(u, token, now))
      case None => (db, Refused(400, TokenInvalid))
      case Some(user) =>
        (db.(users := ReplacePassword(db.users, user.id, svc.hash(password))), Done(200, PasswordChanged))
  }

  // ---------------------------------------------------------------------------
  // The handlers, statement by statement

  method Register(store: Database, b: RegisterBody, svc: Services, token: string) returns (reply: Reply, jwt: Option<string>)
    modifies store
    ensures (store.data, reply, jwt) == RegisterOutcome(old(store.data), b, svc, token)
  {
    jwt := None;
    if !RegisterBodyValid(b) {
      return InvalidBody, None;
    }
    var existing := UserWithEmail(store.data.users, b.email);
    if existing.Some? {
      return Refused(400, EmailTaken), None;
    }
    var passwordHash := svc.hash(b.password);
    var user := User(store.data.serial, b.email, Some(passwordHash), Trim(b.firstName), Trim(b.lastName),
                     b.userType, b.phone, false, Some(token), None, None);
    store.data := store.data.(users := store.data.users + [user], serial := store.data.serial + 1);
    if svc.mailFails {
      return Refused(500, ServerError), None;
    }
    jwt := Some(svc.sign(Claims(user.id, user.userType)));
    reply := Done(201, Registered);
  }

  method Login(store: Database, email: string, password: string, svc: Services) returns (reply: Reply, jwt: Option<string>)
    ensures (reply, jwt) == LoginOutcome(store.data, email, password, svc)
  {
    if password == "" {
      return InvalidBody, None;
    }
    var found := UserWithEmail(store.data.users, email);
    if found.None? {
      return Refused(401, BadCredentials), None;
    }
    var user := found.value;
    if user.passwordHash.None? {
      return Refused(500, ServerError), None;
    }
    if !svc.compare(password, user.passwordHash.value) {
      return Refused(401, BadCredentials), None;
    }
    if !user.emailVerified {
      return NeedsVerification, None;
    }
    return Done(200, LoggedIn), Some(svc.sign(Claims(user.id, user.userType)));
  }

  method VerifyEmail(store: Database, token: string) returns (reply: Reply)
    modifies store
    ensures (store.data, reply) == VerifyEmailOutcome(old(store.data), token)
  {
    var holder := Find(store.data.users, (u: User) => HoldsVerificationToken(u, token));
    if holder.None? {
      return Refused(400, TokenInvalid);
    }
    store.data := store.data.(users := ConfirmEmails(store.data.users, token));
    reply := Done(200, EmailConfirmed);
  }

  method ForgotPassword(store: Database, email: string, svc: Services, token: string, now: int) returns (reply: Reply)
    modifies store
    ensures (store.data, reply) == ForgotPasswordOutcome(old(store.data), email, svc, token, now)
  {
    var found := UserWithEmail(store.data.users, email);
    if found.None? {
      return Done(200, ResetInstructions);
    }
    var expires := now + ResetWindow;
    store.data := store.data.(users := SetResetToken(store.data.users, found.value.id, token, expires));
    if svc.mailFails {
      return Refused(500, ServerError);
    }
    reply := Done(200, ResetInstructions);
  }

  method ResetPassword(store: Database, token: string, password: string, svc: Services, now: int) returns (reply: Reply)
    modifies store
    ensures (store.data, reply) == ResetPasswordOutcome(old(store.data), token, password, svc, now)
  {
    if token == "" || |password| < 6 {
      return InvalidBody;
    }
    var found := Find(store.data.users, (u: User) => HoldsLiveResetToken(u, token, now));
    if found.None? {
      return Refused(400, TokenInvalid);
    }
    var passwordHash := svc.hash(password);
    store.data := store.data.(users := ReplacePassword(store.data.users, found.value.id, passwordHash));
    reply := Done(200, PasswordChanged);
  }

  // ---------------------------------------------------------------------------
  // What the handlers guarantee

  /** With distinct emails, looking a user up by email finds that user. */
  lemma UserWithEmailFinds(users: seq<User>, u: User)
    requires forall i, j :: 0 <= i < j < |users| ==> users[i].email != users[j].email
    requires u in users
    ensures UserWithEmail(users, u.email) == Some(u)
  {
    var found := UserWithEmail(users, u.email);
    var x := found.value;
    var i :| 0 <= i < |users| && users[i] == x;
    var j :| 0 <= j < |users| && users[j] == u;
    if i < j {
      assert users[i].email != users[j].email;
    } else if j < i {
      assert users[j].email != users[i].email;
    }
  }

  /** An email already registered is refused and nothing is written. */
  lemma RegisterRefusesTakenEmail(db: Db, b: RegisterBody, svc: Services, token: string, u: User)
    requires RegisterBodyValid(b) && u in db.users && u.email == b.email
    ensures RegisterOutcome(db, b, svc, token) == (db, Refused(400, EmailTaken), None)
  {
  }

  /** The validators refuse a short password, short names and an unknown user
      type before anything is read; a valid body with a fresh email adds
      exactly one unverified user holding the verification token. */
  lemma RegisterAcceptsExactly(db: Db, b: RegisterBody, svc: Services, token: string)
    ensures RegisterOutcome(db, b, svc, token).1 == InvalidBody <==> !RegisterBodyValid(b)
    ensures RegisterOutcome(db, b, svc, token).1 == Done(201, Registered) <==>
      RegisterBodyValid(b) && (forall u :: u in db.users ==> u.email != b.email) && !svc.mailFails
    ensures RegisterBodyValid(b) && (forall u :: u in db.users ==> u.email != b.email) ==>
      var after := RegisterOutcome(db, b, svc, token).0;
      && |after.users| == |db.users| + 1 && after.users[..|db.users|] == db.users
      && var u := after.users[|db.users|];
      && u.email == b.email && u.userType == b.userType && !u.emailVerified
      && u.verificationToken == Some(token) && u.passwordHash == Some(svc.hash(b.password))
  {
  }

  /** Registration keeps the database's guarantees: the new user takes the
      counter as its id and no one else has its email. */
  lemma RegisterKeepsValid(db: Db, b: RegisterBody, svc: Services, token: string)
    requires Valid(db)
    ensures Valid(RegisterOutcome(db, b, svc, token).0)
  {
    if RegisterBodyValid(b) && UserWithEmail(db.users, b.email).None? {
      var user := User(db.serial, b.email, Some(svc.hash(b.password)), Trim(b.firstName), Trim(b.lastName),
                       b.userType, b.phone, false, Some(token), None, None);
      var users := db.users + [user];
      AppendFreshId(db.users, (u: User) => u.id, user, db.serial);
      forall i, j | 0 <= i < j < |users| ensures users[i].email != users[j].email {
        if j == |db.users| {
          assert db.users[i] in db.users;
        }
      }
      BumpKeepsValid(db, db.serial + 1);
    }
  }

  /** Login refuses an empty password with 400 before the lookup. Otherwise
      it answers 401 with the same message exactly when the email is unknown
      or the password does not match, so the reply does not tell which. */
  lemma LoginRejectsExactly(db: Db, email: string, password: string, svc: Services)
    ensures LoginOutcome(db, email, password, svc).0 == InvalidBody <==> password == ""
    ensures LoginOutcome(db, email, password, svc).0 == Refused(401, BadCredentials) <==>
      && password != ""
      && (|| (forall u :: u in db.users ==> u.email != email)
          || (var u := UserWithEmail(db.users, email).value;
              u.passwordHash.Some? && !svc.compare(password, u.passwordHash.value)))
  {
  }

  /** Login hands out a token exactly for a non-empty password that matches
      a verified user's hash, whatever `compare` says of an empty one, and the
      token carries that user's id and type. */
  lemma LoginSucceedsExactly(db: Db, email: string, password: string, svc: Services)
    requires Valid(db)
    ensures LoginOutcome(db, email, password, svc).0.Done? <==>
      && password != ""
      && exists u :: u in db.users && u.email == email && u.passwordHash.Some? &&
           svc.compare(password, u.passwordHash.value) && u.emailVerified
    ensures forall u :: u in db.users && u.email == email && LoginOutcome(db, email, password, svc).0.Done? ==>
      LoginOutcome(db, email, password, svc) == (Done(200, LoggedIn), Some(svc.sign(Claims(u.id, u.userType))))
  {
    forall u | u in db.users && u.email == email {
      UserWithEmailFinds(db.users, u);
    }
  }

  /** A JWT without spaces, sent as `Bearer <token>`, passes authenticateToken
      with the claims it was signed with. */
  lemma LoginTokenAuthenticates(db: Db, email: string, password: string, svc: Services,
                                verify: string -> Option<Claims>)
    requires LoginOutcome(db, email, password, svc).1.Some?
    requires forall c :: ' ' !in svc.sign(c) && svc.sign(c) != "" && verify(svc.sign(c)) == Some(c)
    ensures var jwt := LoginOutcome(db, email, password, svc).1.value;
      var user := UserWithEmail(db.users, email).value;
      Authenticate(Some("Bearer " + jwt), verify) == Pass(Claims(user.id, user.userType))
  {
    var jwt := LoginOutcome(db, email, password, svc).1.value;
    BearerTokenOfHeader("Bearer", jwt, None);
    assert "Bearer" + " " + jwt + "" == "Bearer " + jwt;
  }

  /** Verification succeeds exactly when some user holds the token, and
      afterwards no one holds it: a link works once. */
  lemma VerifyEmailIsOneShot(db: Db, token: string)
    ensures VerifyEmailOutcome(db, token).1.Done? <==> exists u :: u in db.users && HoldsVerificationToken(u, token)
    ensures var after := VerifyEmailOutcome(db, token).0;
      VerifyEmailOutcome(after, token) == (after, Refused(400, TokenInvalid))
  {
    var after := VerifyEmailOutcome(db, token).0;
    forall u | u in after.users ensures !HoldsVerificationToken(u, token) {
      var i :| 0 <= i < |after.users| && after.users[i] == u;
    }
  }

  lemma VerifyEmailKeepsValid(db: Db, token: string)
    requires Valid(db)
    ensures Valid(VerifyEmailOutcome(db, token).0)
  {
    SameKeysKeepUsersValid(db.users, ConfirmEmails(db.users, token), db.serial);
  }

  /** Forgot-password gives every caller the same answer, registered or not,
      and a registered user then holds the token until an hour from now. */
  lemma ForgotPasswordAnswersAlike(db: Db, email: string, svc: Services, token: string, now: int)
    requires Valid(db) && !svc.mailFails
    ensures ForgotPasswordOutcome(db, email, svc, token, now).1 == Done(200, ResetInstructions)
    ensures forall u :: u in db.users && u.email == email ==>
      var after := ForgotPasswordOutcome(db, email, svc, token, now).0.users;
      exists v :: v in after && v.id == u.id && v.resetToken == Some(token) && v.resetExpires == Some(now + ResetWindow)
  {
    forall u | u in db.users && u.email == email
      ensures var after := ForgotPasswordOutcome(db, email, svc, token, now).0.users;
        exists v :: v in after && v.id == u.id && v.resetToken == Some(token) && v.resetExpires == Some(now + ResetWindow)
    {
      UserWithEmailFinds(db.users, u);
      var after := SetResetToken(db.users, u.id, token, now + ResetWindow);
      var i :| 0 <= i < |db.users| && db.users[i] == u;
      assert after[i] in after;
    }
  }

  lemma ForgotPasswordKeepsValid(db: Db, email: string, svc: Services, token: string, now: int)
    requires Valid(db)
    ensures Valid(ForgotPasswordOutcome(db, email, svc, token, now).0)
  {
    var found := UserWithEmail(db.users, email);
    if found.Some? {
      SameKeysKeepUsersValid(db.users, SetResetToken(db.users, found.value.id, token, now + ResetWindow), db.serial);
    }
  }

  /** A reset is accepted exactly when the request is well formed and some
      user holds the token with an expiry strictly after now. */
  lemma ResetAcceptedExactly(db: Db, token: string, password: string, svc: Services, now: int)
    ensures ResetPasswordOutcome(db, token, password, svc, now).1 == Done(200, PasswordChanged) <==>
      token != "" && |password| >= 6 && exists u :: u in db.users && HoldsLiveResetToken(u, token, now)
  {
  }

  /** The token issued by forgot-password resets the password at any time
      within the following hour. */
  lemma ForgotThenResetWithinTheHour(db: Db, email: string, svc: Services, token: string, now: int,
                                     password: string, later: int, u: User)
    requires Valid(db) && !svc.mailFails && u in db.users && u.email == email
    requires token != "" && |password| >= 6 && later < now + ResetWindow
    ensures var after := ForgotPasswordOutcome(db, email, svc, token, now).0;
      ResetPasswordOutcome(after, token, password, svc, later).1 == Done(200, PasswordChanged)
  {
    ForgotPasswordAnswersAlike(db, email, svc, token, now);
    var after := ForgotPasswordOutcome(db, email, svc, token, now).0;
    var v :| v in after.users && v.id == u.id && v.resetToken == Some(token) && v.resetExpires == Some(now + ResetWindow);
    assert HoldsLiveResetToken(v, token, later);
  }

  /** When one user holds a reset token, it works once: a second reset with
      it is refused. */
  lemma ResetIsOneShot(db: Db, token: string, password: string, svc: Services, now: int, password': string, later: int)
    requires forall i, j :: 0 <= i < |db.users| && 0 <= j < |db.users| ==>
      db.users[i].resetToken == Some(token) && db.users[j].resetToken == Some(token) ==> db.users[i].id == db.users[j].id
    requires ResetPasswordOutcome(db, token, password, svc, now).1 == Done(200, PasswordChanged)
    ensures var after := ResetPasswordOutcome(db, token, password, svc, now).0;
      ResetPasswordOutcome(after, token, password', svc, later).1 != Done(200, PasswordChanged)
  {
    var holder := Find(db.users, (u: User) => HoldsLiveResetToken(u, token, now)).value;
    var after := ResetPasswordOutcome(db, token, password, svc, now).0;
    var k :| 0 <= k < |db.users| && db.users[k] == holder;
    forall v | v in after.users ensures v.resetToken != Some(token) {
      var i :| 0 <= i < |after.users| && after.users[i] == v;
      if db.users[i].resetToken == Some(token) {
        assert db.users[i].id == db.users[k].id;
      }
    }
  }

  lemma ResetPasswordKeepsValid(db: Db, token: string, password: string, svc: Services, now: int)
    requires Valid(db)
    ensures Valid(ResetPasswordOutcome(db, token, password, svc, now).0)
  {
    if token != "" && |password| >= 6 {
      var found := Find(db.users, (u: User) => HoldsLiveResetToken(u, token, now));
      if found.Some? {
        SameKeysKeepUsersValid(db.users, ReplacePassword(db.users, found.value.id, svc.hash(password)), db.serial);
      }
    }
  }

  /** A new user can log in only after following the verification link: right
      after registering, login asks for verification; after the link, it
      succeeds with a token for the new id. */
  lemma RegisterVerifyLogin(db: Db, b: RegisterBody, svc: Services, token: string)
    requires Valid(db) && RegisterBodyValid(b) && !svc.mailFails
    requires forall u :: u in db.users ==> u.email != b.email
    requires svc.compare(b.password, svc.hash(b.password))
    ensures var registered := RegisterOutcome(db, b, svc, token).0;
      && LoginOutcome(registered, b.email, b.password, svc).0 == NeedsVerification
      && var verified := VerifyEmailOutcome(registered, token).0;
         LoginOutcome(verified, b.email, b.password, svc) ==
           (Done(200, LoggedIn), Some(svc.sign(Claims(db.serial, b.userType))))
  {
    var registered := RegisterOutcome(db, b, svc, token).0;
    var user := registered.users[|db.users|];
    RegisterKeepsValid(db, b, svc, token);
    UserWithEmailFinds(registered.users, user);
    var verified := VerifyEmailOutcome(registered, token).0;
    VerifyEmailKeepsValid(registered, token);
    var user' := verified.users[|db.users|];
    assert user' in verified.users;
    UserWithEmailFinds(verified.users, user');
  }
}
