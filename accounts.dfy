/** The account-verification state machine of AuthenticationService, stated on
    the user table as a value: each operation maps the table it reads to the
    table it leaves behind, or to the exception it throws (a thrown operation
    saves nothing, so the table is unchanged). Time is a whole number of
    minutes; the clock reading and the random draw are parameters. */
module Accounts {
  import opened Outcomes
  import opened VerificationCodes

  /** Minutes a verification code stays valid: plusMinutes(15). */
  const CodeLifetime: int := 15

  /** The user record: identity, password hash, enabled flag, and the code with
      its expiry (both null once the account is verified). */
  datatype User = User(
    username: string,
    email: string,
    passwordHash: string,
    enabled: bool,
    verificationCode: Option<string>,
    verificationCodeExpiredAt: Option<int>)

  /** The user repository, looked up by email (findByEmail). */
  type Users = map<string, User>

  /** The exceptions the service throws. */
  datatype AuthError =
    | UserNotFound        // "User is Not found" / "user not found" / "User not found"
    | AccountNotVerified  // "Account not Verified. Please Verify user account"
    | BadCredentials      // thrown by the authentication manager on a wrong password
    | CodeExpired         // "Verification code has expired"
    | InvalidCode         // "Invalid Verification code"
    | AlreadyVerified     // "Account is already verified"
    | NullDereference     // a NullPointerException on a cleared code or expiry

  /** Waiting for verification: disabled, holding a code and its expiry. */
  predicate Pending(u: User) {
    !u.enabled && u.verificationCode.Some? && u.verificationCodeExpiredAt.Some?
  }

  /** Verified: enabled, code and expiry both cleared. */
  predicate Verified(u: User) {
    u.enabled && u.verificationCode.None? && u.verificationCodeExpiredAt.None?
  }

  /** Same account: the fields no operation of the state machine touches. */
  predicate SameIdentity(u: User, v: User) {
    u.username == v.username && u.email == v.email && u.passwordHash == v.passwordHash
  }

  /** A record is stored under its own email and is in one of the two states;
      a pending code is a six-digit code. */
  predicate UserWellFormed(key: string, u: User) {
    && u.email == key
    && (Verified(u) || (Pending(u) && IsSixDigitCode(u.verificationCode.value)))
  }

  predicate WellFormed(users: Users) {
    forall e :: e in users ==> UserWellFormed(e, users[e])
  }

  /** The code is accepted at time now: its expiry is not before now and the
      stored code is the supplied one (string equality). */
  predicate Accepts(u: User, code: string, now: int) {
    && u.verificationCodeExpiredAt.Some?
    && !(u.verificationCodeExpiredAt.value < now)
    && u.verificationCode == Some(code)
  }

  /** signup: a disabled record with a fresh code expiring CodeLifetime minutes
      from now, saved under its email. There is no duplicate check; in this
      model, where the table is keyed by email, a record already stored under
      that email is replaced. */
  function Signup(users: Users, username: string, email: string, passwordHash: string,
                  draw: int, now: int): (r: Users)
    requires 0 <= draw < DrawBound
    ensures r.Keys == users.Keys + {email}
    ensures forall e :: e in users && e != email ==> r[e] == users[e]
    ensures Pending(r[email]) && IsSixDigitCode(r[email].verificationCode.value)
    ensures r[email].verificationCode == Some(GenerateVerificationCode(draw))
    ensures r[email].verificationCodeExpiredAt == Some(now + CodeLifetime)
    ensures r[email].verificationCodeExpiredAt.value > now
    ensures r[email].username == username && r[email].email == email
    ensures r[email].passwordHash == passwordHash
  {
    var user := User(username, email, passwordHash, false,
                     Some(GenerateVerificationCode(draw)), Some(now + CodeLifetime));
    users[email := user]
  }

  /** authenticate: look the email up, refuse a disabled account, and only then
      ask the credential check (credentialsMatch(raw password, stored hash)). */
  function Authenticate(users: Users, email: string, password: string,
                        credentialsMatch: (string, string) -> bool): (r: Result<User, AuthError>)
    ensures email !in users ==> r == Err(UserNotFound)
    ensures email in users && !users[email].enabled ==> r == Err(AccountNotVerified)
    ensures (email in users && users[email].enabled
             && !credentialsMatch(password, users[email].passwordHash)) ==> r == Err(BadCredentials)
    ensures r.Ok? <==> email in users && users[email].enabled
                        && credentialsMatch(password, users[email].passwordHash)
    ensures r.Ok? ==> r.value == users[email] && r.value.enabled
  {
    if email !in users then Err(UserNotFound)
    else
      var user := users[email];
      if !user.enabled then Err(AccountNotVerified)
      else if !credentialsMatch(password, user.passwordHash) then Err(BadCredentials)
      else Ok(user)
  }

  /** VerifyUser: the expiry is checked first and the code second; success
      enables the account and clears code and expiry together. A record whose
      expiry (or code) is already null throws a NullPointerException. */
  function VerifyUser(users: Users, email: string, code: string, now: int): (r: Result<Users, AuthError>)
    ensures email !in users ==> r == Err(UserNotFound)
    ensures email in users && users[email].verificationCodeExpiredAt.None? ==> r == Err(NullDereference)
    ensures (email in users && users[email].verificationCodeExpiredAt.Some?
             && users[email].verificationCodeExpiredAt.value < now) ==> r == Err(CodeExpired)
    ensures (email in users && users[email].verificationCodeExpiredAt.Some?
             && now <= users[email].verificationCodeExpiredAt.value
             && users[email].verificationCode.Some?
             && users[email].verificationCode.value != code) ==> r == Err(InvalidCode)
    ensures (email in users && users[email].verificationCodeExpiredAt.Some?
             && now <= users[email].verificationCodeExpiredAt.value
             && users[email].verificationCode.None?) ==> r == Err(NullDereference)
    ensures r.Ok? <==> email in users && Accepts(users[email], code, now)
    ensures r.Ok? ==> && r.value.Keys == users.Keys
                      && Verified(r.value[email])
                      && SameIdentity(r.value[email], users[email])
                      && (forall e :: e in users && e != email ==> r.value[e] == users[e])
  {
    if email !in users then Err(UserNotFound)
    else
      var user := users[email];
      match user.verificationCodeExpiredAt
      case None => Err(NullDereference)
      case Some(expiry) =>
        if expiry < now then Err(CodeExpired)
        else
          match user.verificationCode
          case None => Err(NullDereference)
          case Some(stored) =>
            if stored == code then
              Ok(users[email := user.(enabled := true, verificationCode := None,
                                      verificationCodeExpiredAt := None)])
            else Err(InvalidCode)
  }

  /** resendVerificationCode: an unverified account gets a fresh code expiring
      CodeLifetime minutes from now; unknown or enabled accounts are refused. */
  function ResendVerificationCode(users: Users, email: string, draw: int, now: int): (r: Result<Users, AuthError>)
    requires 0 <= draw < DrawBound
    ensures email !in users ==> r == Err(UserNotFound)
    ensures email in users && users[email].enabled ==> r == Err(AlreadyVerified)
    ensures r.Ok? <==> email in users && !users[email].enabled
    ensures r.Ok? ==> && r.value.Keys == users.Keys
                      && Pending(r.value[email])
                      && SameIdentity(r.value[email], users[email])
                      && r.value[email].verificationCode == Some(GenerateVerificationCode(draw))
                      && r.value[email].verificationCodeExpiredAt == Some(now + CodeLifetime)
                      && (forall e :: e in users && e != email ==> r.value[e] == users[e])
  {
    if email !in users then Err(UserNotFound)
    else
      var user := users[email];
      if user.enabled then Err(AlreadyVerified)
      else
        Ok(users[email := user.(verificationCode := Some(GenerateVerificationCode(draw)),
                                verificationCodeExpiredAt := Some(now + CodeLifetime))])
  }

  // ---------------------------------------------------------------------------
  // The invariant: every reachable table is well formed.

  lemma SignupKeepsWellFormed(users: Users, username: string, email: string, passwordHash: string,
                              draw: int, now: int)
    requires 0 <= draw < DrawBound
    requires WellFormed(users)
    ensures WellFormed(Signup(users, username, email, passwordHash, draw, now))
  {
  }

  lemma VerifyKeepsWellFormed(users: Users, email: string, code: string, now: int)
    requires WellFormed(users)
    requires VerifyUser(users, email, code, now).Ok?
    ensures WellFormed(VerifyUser(users, email, code, now).value)
  {
  }

  lemma ResendKeepsWellFormed(users: Users, email: string, draw: int, now: int)
    requires 0 <= draw < DrawBound
    requires WellFormed(users)
    requires ResendVerificationCode(users, email, draw, now).Ok?
    ensures WellFormed(ResendVerificationCode(users, email, draw, now).value)
  {
  }

  // ---------------------------------------------------------------------------
  // authenticate

  /** The enabled check runs before the credential check: a disabled account is
      refused with the same error whatever password and credential check. */
  lemma DisabledRefusedBeforeCredentials(users: Users, email: string,
                                         password1: string, match1: (string, string) -> bool,
                                         password2: string, match2: (string, string) -> bool)
    requires email in users && !users[email].enabled
    ensures Authenticate(users, email, password1, match1) == Authenticate(users, email, password2, match2)
    ensures Authenticate(users, email, password1, match1) == Err(AccountNotVerified)
  {
  }

  /** A fresh signup cannot log in, even with the right password. */
  lemma NoLoginBeforeVerification(users: Users, username: string, email: string, passwordHash: string,
                                  draw: int, now: int, password: string,
                                  credentialsMatch: (string, string) -> bool)
    requires 0 <= draw < DrawBound
    ensures Authenticate(Signup(users, username, email, passwordHash, draw, now),
                         email, password, credentialsMatch) == Err(AccountNotVerified)
  {
  }

  /** After a successful verification the right password logs in and returns
      the verified record. */
  lemma LoginAfterVerification(users: Users, email: string, code: string, now: int, password: string,
                               credentialsMatch: (string, string) -> bool)
    requires VerifyUser(users, email, code, now).Ok?
    requires credentialsMatch(password, users[email].passwordHash)
    ensures var after := VerifyUser(users, email, code, now).value;
            Authenticate(after, email, password, credentialsMatch) == Ok(after[email])
  {
  }

  // ---------------------------------------------------------------------------
  // VerifyUser

  /** The code issued at signup verifies at any time up to and including its expiry. */
  lemma SignupCodeVerifiesInTime(users: Users, username: string, email: string, passwordHash: string,
                                 draw: int, now: int, later: int)
    requires 0 <= draw < DrawBound
    requires now <= later <= now + CodeLifetime
    ensures VerifyUser(Signup(users, username, email, passwordHash, draw, now),
                       email, GenerateVerificationCode(draw), later).Ok?
  {
  }

  /** Once the expiry has passed, every code is refused as expired, the right one included. */
  lemma SignupCodeExpires(users: Users, username: string, email: string, passwordHash: string,
                          draw: int, now: int, later: int, code: string)
    requires 0 <= draw < DrawBound
    requires later > now + CodeLifetime
    ensures VerifyUser(Signup(users, username, email, passwordHash, draw, now),
                       email, code, later) == Err(CodeExpired)
  {
  }

  /** A wrong code before the expiry is refused as invalid. That nothing is
      saved on this failure is stated by AuthenticationService.VerifyUser. */
  lemma WrongCodeRefused(users: Users, email: string, code: string, now: int)
    requires email in users && Pending(users[email])
    requires now <= users[email].verificationCodeExpiredAt.value
    requires users[email].verificationCode != Some(code)
    ensures VerifyUser(users, email, code, now) == Err(InvalidCode)
  {
  }

  /** Verification succeeds at most once: the second attempt finds the expiry
      cleared and dereferences null, whatever code and time. */
  lemma VerifyOnlyOnce(users: Users, email: string, code: string, now: int,
                       code2: string, now2: int)
    requires VerifyUser(users, email, code, now).Ok?
    ensures VerifyUser(VerifyUser(users, email, code, now).value, email, code2, now2) == Err(NullDereference)
  {
  }

  /** In a well-formed table the null dereference happens exactly for accounts
      that are already verified: it is how the Java code signals "already verified". */
  lemma NullDereferenceIffVerified(users: Users, email: string, code: string, now: int)
    requires WellFormed(users) && email in users
    ensures VerifyUser(users, email, code, now) == Err(NullDereference) <==> users[email].enabled
  {
  }

  // ---------------------------------------------------------------------------
  // resendVerificationCode

  /** A resend invalidates the previous code (unless the new draw happens to
      produce the same one) and the new code verifies until its expiry. */
  lemma ResendReplacesCode(users: Users, email: string, draw: int, now: int, later: int)
    requires 0 <= draw < DrawBound
    requires WellFormed(users) && email in users && !users[email].enabled
    requires users[email].verificationCode.value != GenerateVerificationCode(draw)
    requires now <= later <= now + CodeLifetime
    ensures var after := ResendVerificationCode(users, email, draw, now).value;
            && VerifyUser(after, email, users[email].verificationCode.value, later) == Err(InvalidCode)
            && VerifyUser(after, email, GenerateVerificationCode(draw), later).Ok?
  {
  }

  /** Resend revives an expired account: after a resend at time now, the new
      code verifies at now even if the old one had expired. */
  lemma ResendRevivesExpiredCode(users: Users, email: string, draw: int, now: int)
    requires 0 <= draw < DrawBound
    requires email in users && Pending(users[email])
    requires users[email].verificationCodeExpiredAt.value < now
    ensures VerifyUser(users, email, GenerateVerificationCode(draw), now) == Err(CodeExpired)
    ensures VerifyUser(ResendVerificationCode(users, email, draw, now).value,
                       email, GenerateVerificationCode(draw), now).Ok?
  {
  }

  // ---------------------------------------------------------------------------
  // The state machine: verify and resend never disable an account; signup can.

  lemma VerifyNeverDisables(users: Users, email: string, code: string, now: int, other: string)
    requires VerifyUser(users, email, code, now).Ok?
    requires other in users && users[other].enabled
    ensures VerifyUser(users, email, code, now).value[other].enabled
  {
  }

  lemma ResendNeverDisables(users: Users, email: string, draw: int, now: int, other: string)
    requires 0 <= draw < DrawBound
    requires ResendVerificationCode(users, email, draw, now).Ok?
    requires other in users && users[other].enabled
    ensures ResendVerificationCode(users, email, draw, now).value[other].enabled
  {
  }

  /** In this model, where a save under an existing email replaces that
      record, signing up again with a verified account's email leaves a fresh
      unverified record, which then cannot log in. */
  lemma SignupOverwritesVerifiedAccount(users: Users, username: string, email: string,
                                        passwordHash: string, draw: int, now: int,
                                        password: string, credentialsMatch: (string, string) -> bool)
    requires 0 <= draw < DrawBound
    requires email in users && users[email].enabled
    ensures !Signup(users, username, email, passwordHash, draw, now)[email].enabled
    ensures Authenticate(Signup(users, username, email, passwordHash, draw, now),
                         email, password, credentialsMatch) == Err(AccountNotVerified)
  {
  }
}
