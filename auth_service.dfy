/** AuthenticationService as the Java class is: it reads and saves
    user records in a repository and hands verification mails to a mail
    service. Each method does what the Java method does, step by step, and its
    contract ties the repository it leaves behind to the state machine of
    module Accounts. */
module AuthService {
  import opened Outcomes
  import opened VerificationCodes
  import opened Accounts

  /** A verification mail handed to the mail server: recipient and the code in
      its body (null when the record holds no code). */
  datatype Mail = Mail(to: string, code: Option<string>)

  class AuthenticationService {
    /** The user repository, keyed by email. */
    var users: Users
    /** Mails the mail server accepted, oldest first. */
    var outbox: seq<Mail>

    /** Every stored record is either pending with a six-digit code or
        verified with code and expiry cleared. */
    predicate Valid()
      reads this
    {
      WellFormed(users)
    }

    constructor ()
      ensures Valid() && users == map[] && outbox == []
    {
      users := map[];
      outbox := [];
    }

    /** sendVerificationEmail: a MessagingException raised while the message
        is built (recipient, subject, text) is caught and printed, so the caller
        carries on and nothing is sent. `delivered` says whether the message
        could be built; when it could, the mail server accepts it. */
    method SendVerificationEmail(user: User, delivered: bool)
      modifies this`outbox
      ensures outbox == old(outbox) + (if delivered then [Mail(user.email, user.verificationCode)] else [])
    {
      if delivered {
        outbox := outbox + [Mail(user.email, user.verificationCode)];
      }
    }

    /** signup: build the record, stamp code, expiry and enabled = false, send
        the mail, then save. `encode` is the password encoder and `draw` the
        value Random.nextInt(900000) returned. */
    method Signup(username: string, email: string, password: string, encode: string -> string,
                  draw: int, now: int, delivered: bool) returns (user: User)
      requires 0 <= draw < DrawBound
      requires Valid()
      modifies this
      ensures Valid()
      ensures users == Accounts.Signup(old(users), username, email, encode(password), draw, now)
      ensures user == users[email]
      ensures outbox == old(outbox) + (if delivered then [Mail(email, user.verificationCode)] else [])
    {
      user := User(username, email, encode(password), false, None, None);
      user := user.(verificationCode := Some(GenerateVerificationCode(draw)));
      user := user.(verificationCodeExpiredAt := Some(now + CodeLifetime));
      user := user.(enabled := false);
      SendVerificationEmail(user, delivered);
      SignupKeepsWellFormed(users, username, email, encode(password), draw, now);
      users := users[email := user];
    }

    /** authenticate: reads the repository only. */
    method Authenticate(email: string, password: string, credentialsMatch: (string, string) -> bool)
      returns (r: Result<User, AuthError>)
      ensures r == Accounts.Authenticate(users, email, password, credentialsMatch)
      ensures r.Ok? ==> r.value.enabled && email in users && r.value == users[email]
    {
      if email !in users {
        return Err(UserNotFound);
      }
      var user := users[email];
      if !user.enabled {
        return Err(AccountNotVerified);
      }
      if !credentialsMatch(password, user.passwordHash) {
        return Err(BadCredentials);
      }
      return Ok(user);
    }

    /** VerifyUser: on success the record is saved enabled with code and expiry
        cleared; every failure throws before the save. */
    method VerifyUser(email: string, code: string, now: int) returns (r: Outcome<AuthError>)
      requires Valid()
      modifies this`users
      ensures Valid()
      ensures match Accounts.VerifyUser(old(users), email, code, now)
              case Ok(next) => r == Pass && users == next
              case Err(e) => r == Fail(e) && users == old(users)
      ensures email in old(users) ==> (r == Fail(NullDereference) <==> old(users)[email].enabled)
    {
      if email !in users {
        return Fail(UserNotFound);
      }
      NullDereferenceIffVerified(users, email, code, now);
      var user := users[email];
      if user.verificationCodeExpiredAt.None? {
        return Fail(NullDereference);
      }
      if user.verificationCodeExpiredAt.value < now {
        return Fail(CodeExpired);
      }
      if user.verificationCode.None? {
        return Fail(NullDereference);
      }
      if user.verificationCode.value == code {
        VerifyKeepsWellFormed(users, email, code, now);
        user := user.(enabled := true);
        user := user.(verificationCode := None);
        user := user.(verificationCodeExpiredAt := None);
        users := users[email := user];
        r := Pass;
      } else {
        r := Fail(InvalidCode);
      }
    }

    /** resendVerificationCode: an unverified record gets a new code and expiry,
        the mail is sent, then the record is saved. */
    method ResendVerificationCode(email: string, draw: int, now: int, delivered: bool)
      returns (r: Outcome<AuthError>)
      requires 0 <= draw < DrawBound
      requires Valid()
      modifies this
      ensures Valid()
      ensures match Accounts.ResendVerificationCode(old(users), email, draw, now)
              case Ok(next) =>
                && r == Pass && users == next
                && outbox == old(outbox) + (if delivered then [Mail(next[email].email, next[email].verificationCode)] else [])
              case Err(e) => r == Fail(e) && users == old(users) && outbox == old(outbox)
    {
      if email !in users {
        return Fail(UserNotFound);
      }
      var user := users[email];
      if user.enabled {
        return Fail(AlreadyVerified);
      }
      user := user.(verificationCode := Some(GenerateVerificationCode(draw)));
      user := user.(verificationCodeExpiredAt := Some(now + CodeLifetime));
      SendVerificationEmail(user, delivered);
      ResendKeepsWellFormed(users, email, draw, now);
      users := users[email := user];
      r := Pass;
    }
  }

  /** The example journey: sign up, verify with the mailed code within its
      lifetime, log in; the service's contracts alone carry the proof. */
  method SignupVerifyLogin(service: AuthenticationService, email: string, password: string,
                           encode: string -> string, credentialsMatch: (string, string) -> bool,
                           draw: int, now: int)
    requires 0 <= draw < DrawBound
    requires credentialsMatch(password, encode(password))
    requires service.Valid()
    modifies service
  {
    var user := service.Signup("ann", email, password, encode, draw, now, true);
    assert service.outbox[|service.outbox| - 1] == Mail(email, Some(GenerateVerificationCode(draw)));
    var login := service.Authenticate(email, password, credentialsMatch);
    assert login == Err(AccountNotVerified);
    var verified := service.VerifyUser(email, GenerateVerificationCode(draw), now + CodeLifetime);
    assert verified == Pass;
    login := service.Authenticate(email, password, credentialsMatch);
    assert login.Ok? && login.value.enabled;
    var again := service.VerifyUser(email, GenerateVerificationCode(draw), now + CodeLifetime);
    assert again == Fail(NullDereference);
  }
}
