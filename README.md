# Taskflow: account verification and owner-scoped tasks, in Dafny

Taskflow is a small Spring web application. Users sign up, confirm their email
with a six-digit code, log in, and keep a private list of tasks. This project
models the two stateful parts of that application and proves properties about
them.

- **AuthenticationService** holds the account-verification state machine.
  A user record is keyed by email. It carries `enabled`, a verification code
  and the code's expiry. The operations are:
  - `signup` creates a disabled record with a fresh code that expires 15
    minutes later. It sends the mail and saves the record.
  - `authenticate` refuses an unknown email, then a disabled account, and only
    then checks the password.
  - `VerifyUser` checks the expiry first and the code second. On success it
    enables the account and clears the code and the expiry together.
  - `resendVerificationCode` reissues the code and the expiry for an
    unverified account.
  - `generateVerificationCode` maps a random draw in [0, 900000) to a code in
    [100000, 999999] and renders it as decimal digits.
- **TaskController** keeps the task table (`Task`: id, title, status, owner).
  Every lookup is scoped to the current user. `ownedTaskOrThrow` gives the same
  not-found error for a missing task and for another user's task. `add` stamps
  status false and the current owner. `update` flips the status. `delete`
  removes the task. The home page lists the current user's tasks.

Layout:

- `outcomes.dfy` defines `Option` (a Java reference that may be null), `Result`
  and `Outcome` (a call that returns or throws).
- `verification_codes.dfy` holds the code issuer. It defines the decimal
  rendering that `String.valueOf` performs and its inverse.
- `accounts.dfy` states the state machine as functions on the user table.
  Each function maps a table to the table left behind, or to the exception
  thrown, in which case nothing is saved. The file also proves the lemmas
  about these functions.
- `auth_service.dfy` has the class `AuthenticationService`. It holds the
  repository (`users`) and the mails the mail server accepted (`outbox`).
  Its methods follow the Java statements one by one. Their postconditions tie
  the new state to `accounts.dfy`.
- `tasks.dfy` states the task table as functions on a map keyed by id, with
  lemmas.
- `task_controller.dfy` has the class `TaskController`. It holds the table and
  the identity column's next value. Its methods are tied to `tasks.dfy`.

Inputs that come from outside the program are parameters:

- the clock (`now`, whole minutes);
- the value `Random.nextInt(900000)` returned (`draw`);
- whether the mail message could be built (`delivered`). When it could, the
  mail is handed to the server and accepted. When it could not (for example an
  address that `setTo` rejects), nothing is sent;
- the password encoder (`encode`);
- the authentication manager's password check (`credentialsMatch(raw, hash)`);
- the logged-in user's id (`currentUser`), instead of the security context.

### Where the code departs from what one would expect

The model follows the code in each of these places.

- `signup` has no duplicate-email check.
- `authenticate` tests `enabled` before it checks the credentials. A disabled
  account is refused with "not verified" whatever password was given
  (`Accounts.DisabledRefusedBeforeCredentials`).
- A `MessagingException` raised while the mail message is built (`setTo`,
  `setSubject`, `setText`) is caught and printed. In that case no mail is sent,
  yet `signup` and `resendVerificationCode` still succeed and save. A refusal by
  the mail server at `send` is a different, unchecked exception that is not
  caught (listed under Left out below).
- `VerifyUser` on an already-verified account dereferences the null expiry.
  The model returns the error `NullDereference` there, not `AlreadyVerified`.
  In a well-formed table this error occurs exactly for verified accounts
  (`Accounts.NullDereferenceIffVerified`).
- The code lifetime is 15 minutes (`plusMinutes(15)`), while the mail the user
  receives says "This code expires in 10 minutes."
  (src/main/java/com/example/taskflow/auth/email/EmailService.java:38).
- `add` does not reject an empty title: any string is stored as given.
- `VerifyUser` checks expiry before the code, so an expired code is refused as
  expired even when it matches.

One consequence comes from the model's own reading of `save` and not from the
Java code. The model keys users by email, and a save under an existing email
replaces that record. So in the model a second signup can turn a verified
account back into an unverified one (`Accounts.SignupOverwritesVerifiedAccount`).
In the running program, `save` inserts a new `User` row instead. The outcome
then depends on the database schema, which is not part of this model.

## Model

| member | source | states |
|---|---|---|
| `VerificationCodes.Decimal` | src/main/java/com/example/taskflow/auth/service/AuthenticationService.java:112 | the rendering of a number is a non-empty string of decimal digits |
| `VerificationCodes.ParseDecimalOfDecimal` | src/main/java/com/example/taskflow/auth/service/AuthenticationService.java:112 | reading the rendered digits back gives the number: the rendering is invertible |
| `VerificationCodes.DecimalLength` | src/main/java/com/example/taskflow/auth/service/AuthenticationService.java:111-112 | a number between 10^(k-1) and 10^k renders as exactly k characters |
| `VerificationCodes.SixDigitLength` | src/main/java/com/example/taskflow/auth/service/AuthenticationService.java:111-112 | every number in [100000, 999999] renders as exactly six characters |
| `VerificationCodes.DecimalNoLeadingZero` | src/main/java/com/example/taskflow/auth/service/AuthenticationService.java:112 | a positive number renders without a leading zero |
| `VerificationCodes.DecimalInjective` | src/main/java/com/example/taskflow/auth/service/AuthenticationService.java:112 | two numbers with the same rendering are equal |
| `VerificationCodes.GenerateVerificationCode` | src/main/java/com/example/taskflow/auth/service/AuthenticationService.java:109-113 | for any draw in [0, 900000) the code is six digits with no leading zero, and its value is draw + 100000, in [100000, 999999] |
| `VerificationCodes.GeneratedCodesDistinct` | src/main/java/com/example/taskflow/auth/service/AuthenticationService.java:109-113 | different draws give different code strings |
| `Accounts.Signup` | src/main/java/com/example/taskflow/auth/service/AuthenticationService.java:30-37 | the record under the email is disabled, with identity as given, a six-digit code from the draw and expiry now + 15, strictly after now; every other record is unchanged and no key is lost |
| `Accounts.Authenticate` | src/main/java/com/example/taskflow/auth/service/AuthenticationService.java:39-45 | unknown email: user not found; disabled: not verified, whatever the credentials; enabled and wrong password: bad credentials; success exactly when enabled and the credentials match, returning the stored, enabled record |
| `Accounts.VerifyUser` | src/main/java/com/example/taskflow/auth/service/AuthenticationService.java:47-65 | unknown email: user not found; null expiry: null dereference; expiry strictly before now: expired, even with the right code; unexpired and a null code: null dereference; unexpired and a different code: invalid; success exactly when the expiry is not before now and the code is equal, leaving the account verified with code and expiry cleared, its identity and every other record unchanged |
| `Accounts.ResendVerificationCode` | src/main/java/com/example/taskflow/auth/service/AuthenticationService.java:67-81 | unknown email: user not found; enabled: already verified; otherwise succeeds, leaving the record pending with the new code and expiry now + 15, its identity and every other record unchanged |
| `Accounts.SignupKeepsWellFormed` | src/main/java/com/example/taskflow/auth/service/AuthenticationService.java:30-37 | signup preserves the table invariant: each record is either pending with a six-digit code, or verified with code and expiry both cleared |
| `Accounts.VerifyKeepsWellFormed` | src/main/java/com/example/taskflow/auth/service/AuthenticationService.java:54-58 | a successful verification preserves the table invariant |
| `Accounts.ResendKeepsWellFormed` | src/main/java/com/example/taskflow/auth/service/AuthenticationService.java:70-77 | a successful resend preserves the table invariant |
| `Accounts.DisabledRefusedBeforeCredentials` | src/main/java/com/example/taskflow/auth/service/AuthenticationService.java:42-43 | for a disabled account the outcome is "not verified" and does not depend on the password or on the credential check |
| `Accounts.NoLoginBeforeVerification` | src/main/java/com/example/taskflow/auth/service/AuthenticationService.java:30-45 | right after signup, login fails as not verified whatever password is given |
| `Accounts.LoginAfterVerification` | src/main/java/com/example/taskflow/auth/service/AuthenticationService.java:42-58 | after a successful verification, matching credentials log in and return the verified record |
| `Accounts.SignupCodeVerifiesInTime` | src/main/java/com/example/taskflow/auth/service/AuthenticationService.java:32-58 | the code issued at signup verifies at every time from now up to and including now + 15 |
| `Accounts.SignupCodeExpires` | src/main/java/com/example/taskflow/auth/service/AuthenticationService.java:33-53 | after now + 15 every code, the right one included, is refused as expired |
| `Accounts.WrongCodeRefused` | src/main/java/com/example/taskflow/auth/service/AuthenticationService.java:54-60 | for a pending account before its expiry, a different code is refused as invalid (and nothing is saved) |
| `Accounts.VerifyOnlyOnce` | src/main/java/com/example/taskflow/auth/service/AuthenticationService.java:51-57 | after a successful verification, a second one fails on the cleared expiry for every code and time |
| `Accounts.NullDereferenceIffVerified` | src/main/java/com/example/taskflow/auth/service/AuthenticationService.java:51-57 | in a well-formed table, verification dereferences null exactly when the account is already enabled |
| `Accounts.ResendReplacesCode` | src/main/java/com/example/taskflow/auth/service/AuthenticationService.java:74-77 | after a resend, the previous code is refused as invalid and the new code verifies until the new expiry |
| `Accounts.ResendRevivesExpiredCode` | src/main/java/com/example/taskflow/auth/service/AuthenticationService.java:51-77 | an account whose code has expired verifies again with the code a resend at that time issues |
| `Accounts.VerifyNeverDisables` | src/main/java/com/example/taskflow/auth/service/AuthenticationService.java:54-58 | a verification never disables an enabled account |
| `Accounts.ResendNeverDisables` | src/main/java/com/example/taskflow/auth/service/AuthenticationService.java:71-77 | a resend never disables an enabled account |
| `Accounts.SignupOverwritesVerifiedAccount` | src/main/java/com/example/taskflow/auth/service/AuthenticationService.java:30-37 | in this model, where a save under an existing email replaces the record, signing up with a verified account's email leaves it disabled and unable to log in |
| `AuthService.AuthenticationService.SendVerificationEmail` | src/main/java/com/example/taskflow/auth/service/AuthenticationService.java:99-103 | when the message could be built, a mail to the record's email with its code is appended to the outbox; when building it raised the caught `MessagingException`, nothing is sent and the call does not fail |
| `AuthService.AuthenticationService.Signup` | src/main/java/com/example/taskflow/auth/service/AuthenticationService.java:30-37 | the repository becomes `Accounts.Signup` of the old one with the encoded password, whether or not the mail message could be built, and the table invariant is kept; the returned user is the stored record; the mail carries its code |
| `AuthService.AuthenticationService.Authenticate` | src/main/java/com/example/taskflow/auth/service/AuthenticationService.java:39-45 | returns exactly `Accounts.Authenticate` on the current repository; a returned user is the stored, enabled record |
| `AuthService.AuthenticationService.VerifyUser` | src/main/java/com/example/taskflow/auth/service/AuthenticationService.java:47-65 | on success the repository becomes the verified table; on each failure the same error is thrown and the repository is unchanged; the table invariant is kept, and on a stored email the null dereference happens exactly when the account is already enabled |
| `AuthService.AuthenticationService.ResendVerificationCode` | src/main/java/com/example/taskflow/auth/service/AuthenticationService.java:67-81 | on success the repository holds the reissued code and the mail carries it; on failure repository and outbox are unchanged; the table invariant is kept |
| `Tasks.OwnedTask` | src/main/java/com/example/taskflow/task/controller/TaskController.java:28-37 | succeeds exactly when the id exists and its owner is the current user, returning that task; every failure is the identical not-found error for that id |
| `Tasks.TasksOf` | src/main/java/com/example/taskflow/task/repository/ITaskRepository.java:14 | every listed task is in the table and owned by the user, and every task the user owns is listed |
| `Tasks.AddTask` | src/main/java/com/example/taskflow/task/controller/TaskController.java:48-55 | exactly one new task under a fresh id, with the title, status false and owner the current user; existing tasks unchanged; the id invariant holds for the next id |
| `Tasks.Toggle` | src/main/java/com/example/taskflow/task/controller/TaskController.java:61-65 | succeeds exactly when the task is owned; flips its status, keeps its other fields, the key set and every other task; fails with not-found otherwise |
| `Tasks.Delete` | src/main/java/com/example/taskflow/task/controller/TaskController.java:71-74 | succeeds exactly when the task is owned; removes exactly that key and keeps every other task; fails with not-found otherwise |
| `Tasks.ForeignLooksMissing` | src/main/java/com/example/taskflow/task/controller/TaskController.java:28-37 | lookup, update and delete of another user's task give the same result as if the task did not exist |
| `Tasks.ListedIffOwned` | src/main/java/com/example/taskflow/task/controller/TaskController.java:28-44 | a task with a given id is on the user's listing exactly when the owner-scoped lookup finds it |
| `Tasks.ToggleTwice` | src/main/java/com/example/taskflow/task/controller/TaskController.java:63 | updating the same task twice restores the original table |
| `Tasks.ToggleKeepsValid` | src/main/java/com/example/taskflow/task/controller/TaskController.java:61-65 | an update preserves the id invariant |
| `Tasks.DeleteKeepsValid` | src/main/java/com/example/taskflow/task/controller/TaskController.java:71-74 | a delete preserves the id invariant |
| `Tasks.ListingAfterAdd` | src/main/java/com/example/taskflow/task/controller/TaskController.java:42-55 | after add the owner's listing gains exactly the new task; every other user's listing is unchanged |
| `Tasks.ListingAfterDelete` | src/main/java/com/example/taskflow/task/controller/TaskController.java:71-74 | after delete the owner's listing loses exactly that task; every other user's listing is unchanged |
| `Tasks.ListingAfterToggle` | src/main/java/com/example/taskflow/task/controller/TaskController.java:61-65 | after update the owner's listing has the flipped task in place of the old one; every other user's listing is unchanged |
| `TaskControl.TaskController.OwnedTaskOrThrow` | src/main/java/com/example/taskflow/task/controller/TaskController.java:28-37 | returns `Tasks.OwnedTask`: the owned task, or the not-found error for that id |
| `TaskControl.TaskController.ShowHomePage` | src/main/java/com/example/taskflow/task/controller/TaskController.java:40-44 | lists exactly the current user's tasks |
| `TaskControl.TaskController.Add` | src/main/java/com/example/taskflow/task/controller/TaskController.java:47-56 | the table becomes `Tasks.AddTask` under the old next id, the counter advances, and the invariant is kept |
| `TaskControl.TaskController.Update` | src/main/java/com/example/taskflow/task/controller/TaskController.java:60-66 | on an owned task the table becomes the toggled one; otherwise the not-found error is thrown and the table is unchanged |
| `TaskControl.TaskController.Delete` | src/main/java/com/example/taskflow/task/controller/TaskController.java:70-75 | on an owned task the table loses exactly that task; otherwise the not-found error is thrown and the table is unchanged |

## Left out

- Mail transport: the HTML text of the mail and the mail server are not modelled. A mail is its recipient and code. Whether the message could be built is the `delivered` parameter; a server that accepts it is assumed.
- Password hashing and the authentication manager are library calls. They are the parameters `encode` and `credentialsMatch`.
- `Accounts.Authenticate`: the authentication manager is reduced to one boolean check. Its other exceptions (locked or expired account) are not distinguished from bad credentials.
- The clock and `java.util.Random` are parameters. Time is a whole number of minutes, so the sub-minute precision of `LocalDateTime` is not modelled.
- AuthService.AuthenticationService.Signup: only the caught `MessagingException` is modelled, through `delivered`. A refusal by the mail server at `javaMailSender.send` raises Spring's unchecked `MailException`, which escapes before the save, so the call throws and saves nothing. The model does not capture that.
- AuthService.AuthenticationService.ResendVerificationCode: as for `Signup`, an unchecked failure of the mail call aborts before the save, and the model does not capture that.
- The `User` entity class is not part of this model. The model assumes records are found by email. It assumes a save under an existing email replaces that record, and it does not model a database unique constraint on email.
- User ids, and the id a saved user gets, are not modelled. Tasks name their owner by a plain integer id.
- The task id generator is an unbounded counter starting at 1. Overflow of the 64-bit `Long` id is not modelled.
- Null request fields (a null email, code or title) are not modelled. Request values are strings.
- `TaskControl.TaskController.ShowHomePage`: the listing is a set, so the order of the `List` that `findByUser` returns is not modelled.
- HTTP mapping, JWT issuing, the mapping from exceptions to responses (`AuthController`), security configuration, user listing (`UserController`, `UserService`) and the DTOs carry no logic of the two components and are not part of this model.
- The security context lookup is replaced by the explicit `currentUser` parameter. JPA lazy loading is replaced by whole values in maps.
- Concurrency: each operation is one sequential step.
