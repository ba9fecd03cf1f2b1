/**
 * The authentication routes (backend/routes/api/auth.js) as a state machine over user
 * records: login, the request for a password-reset token, and the reset that consumes it.
 *
 * Time is the integer `now` in milliseconds. The email-format check, the password-hash
 * comparison, the new hash, the random token and the email delivery are opaque: they
 * arrive as parameters.
 */
module Auth {
  import opened Wrappers

  /** A reset token lives one hour. */
  const ResetTokenLifetime: int := 3600000

  /** The shortest new password the reset accepts. */
  const MinPasswordLength: nat := 6

  /** A user document: the fields the routes read or write. */
  datatype UserRecord = UserRecord(
    id: string,
    email: string,
    passwordHash: string,
    resetToken: Option<string>,
    resetExpires: Option<int>)

  /** Login: a body that fails validation, the one credentials error, or a signed session for a user. */
  datatype LoginResponse = LoginRejected | InvalidCredentials | SignedIn(userId: string)

  /** What the email service does with the reset mail: accepts it, answers with an error status, or cannot be reached. */
  datatype MailOutcome = MailAccepted | MailRejected | MailUnreachable

  /** Forgot password: a body that fails validation, the uniform message, or a server error. */
  datatype ForgotResponse = ForgotRejected | ResetLinkSent | ForgotServerError

  /** Reset password: a new password that is too short, a token that is unknown or expired, or success. */
  datatype ResetResponse = PasswordTooShort | TokenInvalidOrExpired | PasswordUpdated

  /** The HTTP status of each answer. */
  function LoginStatus(r: LoginResponse): int
  {
    match r
    case LoginRejected => 400
    case InvalidCredentials => 400
    case SignedIn(_) => 200
  }

  function ForgotStatus(r: ForgotResponse): int
  {
    match r
    case ForgotRejected => 400
    case ResetLinkSent => 200
    case ForgotServerError => 500
  }

  function ResetStatus(r: ResetResponse): int
  {
    match r
    case PasswordTooShort => 400
    case TokenInvalidOrExpired => 400
    case PasswordUpdated => 200
  }

  /** The `findOne` query: the first record, in store order, that satisfies `p`. */
  function FirstWhere(users: seq<UserRecord>, p: UserRecord -> bool): (r: Option<nat>)
    ensures r.Some? ==> r.value < |users| && p(users[r.value])
    ensures r.Some? ==> forall j :: 0 <= j < r.value ==> !p(users[j])
    ensures r.None? <==> forall j :: 0 <= j < |users| ==> !p(users[j])
    decreases |users|
  {
    if users == [] then None
    else if p(users[0]) then Some(0)
    else
      match FirstWhere(users[1..], p)
      case None => None
      case Some(k) => Some(k + 1)
  }

  function FindByEmail(users: seq<UserRecord>, email: string): Option<nat>
  {
    FirstWhere(users, (u: UserRecord) => u.email == email)
  }

  /** The reset query: the stored token equals `token` and its expiry is strictly later than `now`. */
  predicate TokenValid(u: UserRecord, token: string, now: int)
  {
    u.resetToken == Some(token) && u.resetExpires.Some? && u.resetExpires.value > now
  }

  function FindByValidToken(users: seq<UserRecord>, token: string, now: int): (r: Option<nat>)
    ensures r.Some? ==> r.value < |users| && TokenValid(users[r.value], token, now)
    ensures r.Some? ==> forall j :: 0 <= j < r.value ==> !TokenValid(users[j], token, now)
    ensures r.None? <==> forall j :: 0 <= j < |users| ==> !TokenValid(users[j], token, now)
  {
    FirstWhere(users, (u: UserRecord) => TokenValid(u, token, now))
  }

  /** The record after a reset token is issued at time `now`. */
  function WithResetToken(u: UserRecord, token: string, now: int): UserRecord
  {
    u.(resetToken := Some(token), resetExpires := Some(now + ResetTokenLifetime))
  }

  /** The record after a successful reset: the new hash, and neither token nor expiry. */
  function WithNewPassword(u: UserRecord, newHash: string): UserRecord
  {
    u.(passwordHash := newHash, resetToken := None, resetExpires := None)
  }

  /** A freshly issued token opens the reset exactly while `now` is before issue time plus one hour. */
  lemma IssuedTokenLifetime(u: UserRecord, token: string, issued: int, now: int)
    ensures TokenValid(WithResetToken(u, token, issued), token, now) <==> now < issued + ResetTokenLifetime
    ensures WithResetToken(u, token, issued).(resetToken := u.resetToken, resetExpires := u.resetExpires) == u
  {
  }

  /** A reset leaves a record that no token opens, at any time. */
  lemma ResetClearsToken(u: UserRecord, newHash: string, token: string, now: int)
    ensures !TokenValid(WithNewPassword(u, newHash), token, now)
    ensures WithNewPassword(u, newHash).passwordHash == newHash
  {
  }

  /**
   * A token works once: after the reset of the only record that held it, the reset query
   * finds no record for that token, however soon the second attempt comes.
   */
  lemma {:induction false} TokenSingleUse(users: seq<UserRecord>, i: nat, token: string, newHash: string, later: int)
    requires i < |users|
    requires forall j :: 0 <= j < |users| && j != i ==> users[j].resetToken != Some(token)
    ensures FindByValidToken(users[i := WithNewPassword(users[i], newHash)], token, later).None?
  {
    var after := users[i := WithNewPassword(users[i], newHash)];
    forall j | 0 <= j < |after|
      ensures !TokenValid(after[j], token, later)
    {
      if j == i {
        ResetClearsToken(users[i], newHash, token, later);
      }
    }
  }

  /**
   * Forgot, then reset: once a token no other record holds is issued to record `i`,
   * the reset query finds exactly that record until the hour is over, and none after.
   */
  lemma {:induction false} IssuedTokenFindsOwner(users: seq<UserRecord>, i: nat, token: string, issued: int, now: int)
    requires i < |users|
    requires forall j :: 0 <= j < |users| && j != i ==> users[j].resetToken != Some(token)
    ensures var after := users[i := WithResetToken(users[i], token, issued)];
      FindByValidToken(after, token, now) == (if now < issued + ResetTokenLifetime then Some(i) else None)
  {
    var after := users[i := WithResetToken(users[i], token, issued)];
    IssuedTokenLifetime(users[i], token, issued, now);
    forall j | 0 <= j < |after| && j != i
      ensures !TokenValid(after[j], token, now)
    {
      assert after[j] == users[j];
    }
    if now < issued + ResetTokenLifetime {
      assert TokenValid(after[i], token, now);
    }
  }

  /** The user collection. */
  class UserStore {
    var users: seq<UserRecord>

    constructor (initial: seq<UserRecord>)
      ensures users == initial
    {
      users := initial;
    }

    /**
     * POST /: a body without a valid email or without a password is rejected first; an
     * unknown email and a wrong password then give the same InvalidCredentials; otherwise
     * the session is issued for the record found. Nothing is stored.
     */
    method Login(email: Option<string>, password: Option<string>,
                 isEmail: string -> bool, passwordMatches: (string, string) -> bool)
      returns (r: LoginResponse)
      ensures !(email.Some? && isEmail(email.value) && password.Some?) <==> r == LoginRejected
      ensures r == InvalidCredentials <==>
        email.Some? && isEmail(email.value) && password.Some? &&
        (FindByEmail(users, email.value).None? ||
         !passwordMatches(password.value, users[FindByEmail(users, email.value).value].passwordHash))
      ensures r.SignedIn? ==>
        exists i :: 0 <= i < |users| && users[i].email == email.value && users[i].id == r.userId &&
                    passwordMatches(password.value, users[i].passwordHash)
      ensures r.SignedIn? ==>
        FindByEmail(users, email.value).Some? && r.userId == users[FindByEmail(users, email.value).value].id
      ensures LoginStatus(r) == 400 <==> !r.SignedIn?
    {
      if !(email.Some? && isEmail(email.value) && password.Some?) {
        return LoginRejected;
      }
      var found := FindByEmail(users, email.value);
      if found.None? {
        return InvalidCredentials;
      }
      var user := users[found.value];
      if !passwordMatches(password.value, user.passwordHash) {
        return InvalidCredentials;
      }
      r := SignedIn(user.id);
    }

    /**
     * POST /forgot-password: a body without a valid email is rejected and an unknown email
     * changes nothing, with the same answer as success. For a known email the token and
     * its expiry are stored before the mail is sent; a mail the service refuses changes
     * nothing in the answer, while a service that cannot be reached makes it a server
     * error with the token already stored.
     */
    method ForgotPassword(email: Option<string>, now: int, token: string,
                          isEmail: string -> bool, mail: MailOutcome)
      returns (r: ForgotResponse)
      modifies this
      ensures !(email.Some? && isEmail(email.value)) ==> r == ForgotRejected && users == old(users)
      ensures email.Some? && isEmail(email.value) && FindByEmail(old(users), email.value).None? ==>
        r == ResetLinkSent && users == old(users)
      ensures email.Some? && isEmail(email.value) && FindByEmail(old(users), email.value).Some? ==>
        var i := FindByEmail(old(users), email.value).value;
        && users == old(users)[i := WithResetToken(old(users)[i], token, now)]
        && r == (if mail == MailUnreachable then ForgotServerError else ResetLinkSent)
      ensures ForgotStatus(r) == 500 <==>
        email.Some? && isEmail(email.value) && FindByEmail(old(users), email.value).Some? && mail == MailUnreachable
    {
      if !(email.Some? && isEmail(email.value)) {
        return ForgotRejected;
      }
      var found := FindByEmail(users, email.value);
      if found.None? {
        return ResetLinkSent;
      }
      var i := found.value;
      users := users[i := WithResetToken(users[i], token, now)];
      if mail == MailUnreachable {
        return ForgotServerError;
      }
      r := ResetLinkSent;
    }

    /**
     * POST /reset-password/:token: a new password shorter than six characters is rejected
     * before any lookup; a token no record holds unexpired is rejected; otherwise that
     * record takes the new hash and loses its token and expiry. Rejections change nothing.
     */
    method ResetPassword(token: string, password: Option<string>, now: int, newHash: string)
      returns (r: ResetResponse)
      modifies this
      ensures (password.None? || |password.value| < MinPasswordLength) <==> r == PasswordTooShort
      ensures r == TokenInvalidOrExpired <==>
        password.Some? && |password.value| >= MinPasswordLength && FindByValidToken(old(users), token, now).None?
      ensures r != PasswordUpdated ==> users == old(users)
      ensures r == PasswordUpdated ==>
        var i := FindByValidToken(old(users), token, now).value;
        users == old(users)[i := WithNewPassword(old(users)[i], newHash)]
      ensures ResetStatus(r) == 200 <==>
        password.Some? && |password.value| >= MinPasswordLength && FindByValidToken(old(users), token, now).Some?
    {
      if password.None? || |password.value| < MinPasswordLength {
        return PasswordTooShort;
      }
      var found := FindByValidToken(users, token, now);
      if found.None? {
        return TokenInvalidOrExpired;
      }
      var i := found.value;
      users := users[i := WithNewPassword(users[i], newHash)];
      r := PasswordUpdated;
    }
  }
}
