/**
 * The eight operations of the auth service as transitions of the user table:
 * each reads one record, checks its guards in the source's order, and either
 * fails leaving the table as it was or writes back the fields it changes.
 * These functions are the reference definitions the `AuthService` methods
 * are proved against.
 */
module AuthSpec {
  import opened Wrappers
  import opened Hashing
  import opened Otp
  import opened Tokens
  import opened Accounts

  /** The exceptions the service throws, by HTTP class, with their messages. */
  datatype AuthError =
    | BadRequest(message: string)    // BadRequestException (400)
    | Unauthorized(message: string)  // UnauthorizedException (401)
    | Forbidden(message: string)     // ForbiddenException (403)
    | ServerError(message: string)   // a plain Error from a token signer (500)

  const EmailTaken := BadRequest("Email already exists")
  const UserNotFound := BadRequest("User not found")
  const NoOtpFound := BadRequest("No OTP found")
  const InvalidOtp := BadRequest("Invalid OTP")
  const OtpExpired := BadRequest("OTP expired")
  const InvalidCredentials := Unauthorized("Invalid credentials")
  const EmailNotVerified := Forbidden("Email not verified")
  const AccessDenied := Unauthorized("Access denied")
  const InvalidRequest := BadRequest("Invalid request")
  const WrongCurrentPassword := BadRequest("Current password incorrect")

  const SignupMessage := "Signup successful. OTP sent to email."
  const AlreadyVerifiedMessage := "Email already verified"
  const VerifiedMessage := "Email verified successfully"
  const LoginMessage := "Login successful"
  const LogoutMessage := "Logged out"
  const ForgotMessage := "If email exists, OTP sent."
  const ResetMessage := "Password reset successful"
  const ChangedMessage := "Password changed successfully"

  const VerifySubject := "Verify your email"
  const ResetSubject := "Reset your password"

  /** The user part of the login reply. */
  datatype UserView = UserView(id: Id, email: Email, name: Option<string>, role: Role)

  datatype TokenPair = TokenPair(accessToken: Token, refreshToken: Token)

  /** What a successful operation returns. */
  datatype Reply =
    | Message(text: string)
    | SignedUp(text: string, userId: Id)
    | LoggedIn(text: string, user: UserView, tokens: TokenPair)
    | Refreshed(tokens: TokenPair)

  /** A request to the mailer (`sendOtpEmail`), issued after the table is written. */
  datatype OtpMail = OtpMail(to: Email, subject: string, otp: string)

  /** The table after an operation, its outcome, and the mail it sends. */
  datatype Step = Step(store: Store, result: Result<Reply, AuthError>, mail: Option<OtpMail>)

  /** How a presented OTP fares against a stored code and expiry. */
  datatype OtpVerdict = Accepted | Missing | Mismatch | Expired

  /**
   * The three OTP checks of verifyEmail and resetPassword, in order: a pair
   * must be stored (a missing or empty code counts as none), the code must
   * equal the presented one, and the expiry must not be before now, so an
   * OTP is still accepted at the very millisecond it expires.
   */
  function CheckOtp(code: Option<string>, expiresAt: Option<int>, presented: string, now: int): (v: OtpVerdict)
    ensures v == Missing <==> code.None? || code.value == "" || expiresAt.None?
    ensures v == Mismatch <==> code.Some? && code.value != "" && expiresAt.Some? && code.value != presented
    ensures v == Expired <==> code == Some(presented) && presented != "" && expiresAt.Some? && expiresAt.value < now
    ensures v == Accepted <==> code == Some(presented) && presented != "" && expiresAt.Some? && now <= expiresAt.value
  {
    if code.None? || code.value == "" || expiresAt.None? then Missing
    else if code.value != presented then Mismatch
    else if expiresAt.value < now then Expired
    else Accepted
  }

  /** The exception a rejected OTP raises. */
  function OtpError(v: OtpVerdict): (e: AuthError)
    requires v != Accepted
    ensures e.BadRequest?
    ensures v == Missing <==> e == NoOtpFound
    ensures v == Mismatch <==> e == InvalidOtp
    ensures v == Expired <==> e == OtpExpired
  {
    match v
    case Missing => NoOtpFound
    case Mismatch => InvalidOtp
    case Expired => OtpExpired
  }

  /**
   * Signing an access token and then a refresh token for an account, as
   * login and refreshTokens do: the first missing secret is the error.
   */
  function IssueTokens(config: Config, a: Account, now: int): (r: Result<TokenPair, AuthError>)
    ensures r.Ok? <==> Present(config.accessSecret) && Present(config.refreshSecret)
    ensures !Present(config.accessSecret) ==> r == Err(ServerError(AccessSecretMissing))
    ensures Present(config.accessSecret) && !Present(config.refreshSecret) ==>
              r == Err(ServerError(RefreshSecretMissing))
    ensures r.Ok? ==> && r.value.accessToken.payload == ClaimsOf(a.id, a.role, a.email)
                      && r.value.refreshToken.payload == ClaimsOf(a.id, a.role, a.email)
                      && r.value.accessToken.secret == config.accessSecret.value
                      && r.value.refreshToken.secret == config.refreshSecret.value
                      && r.value.refreshToken == SignRefreshToken(config, a.id, a.role, a.email, now).value
  {
    var access := SignAccessToken(config, a.id, a.role, a.email, now);
    if access.Err? then Err(ServerError(access.error))
    else
      var refresh := SignRefreshToken(config, a.id, a.role, a.email, now);
      if refresh.Err? then Err(ServerError(refresh.error))
      else Ok(TokenPair(access.value, refresh.value))
  }

  /**
   * The record signup creates: the given profile, the password stored only as
   * a digest it matches, the default role, unverified, a six-digit email OTP
   * expiring ten minutes after `now`, no reset OTP and no session.
   */
  ghost predicate NewAccount(a: Account, id: Id, email: Email, password: string,
                             userName: Option<string>, phone: string, now: int)
  {
    && a.id == id && a.email == email && a.userName == userName && a.phone == phone
    && Matches(password, a.password) && a.role == DefaultRole && !a.emailVerified
    && a.emailOtp.Some? && |a.emailOtp.value| == DefaultLength
    && AllDigits(a.emailOtp.value) && a.emailOtp.value[0] != '0'
    && a.emailOtpExpiresAt == Some(now + 600000)
    && a.resetOtp.None? && a.resetOtpExpiresAt.None? && a.refreshTokenHash.None?
  }

  /**
   * signup: a taken email is refused and nothing changes; otherwise exactly
   * one record is added under the id the database assigns (`newId`), and the
   * email OTP is mailed to the new address.
   */
  function Signup(s: Store, email: Email, password: string, userName: Option<string>, phone: string,
                  newId: Id, draw: nat, now: int): (r: Step)
    requires Valid(s)
    requires newId !in s.users
    requires draw <= OtpMax(DefaultLength) - OtpMin(DefaultLength)
    ensures Valid(r.store) && Evolves(s, r.store)
    ensures r.result.Err? <==> email in s.byEmail
    ensures email in s.byEmail ==> r == Step(s, Err(EmailTaken), None)
    ensures email !in s.byEmail ==>
              && r.store.users.Keys == s.users.Keys + {newId}
              && r.store.byEmail == s.byEmail[email := newId]
              && (forall id :: id in s.users ==> r.store.users[id] == s.users[id])
              && NewAccount(r.store.users[newId], newId, email, password, userName, phone, now)
              && r.result == Ok(SignedUp(SignupMessage, newId))
              && r.mail == Some(OtpMail(email, VerifySubject, r.store.users[newId].emailOtp.value))
  {
    if email in s.byEmail then Step(s, Err(EmailTaken), None)
    else
      var otp := GenerateOtp(DefaultLength, draw);
      var expires := OtpExpiry(now, DefaultMinutes);
      var a := Account(newId, email, userName, phone, Hash(password), DefaultRole, false,
                       Some(otp), Some(expires), None, None, None);
      Step(Store(s.users[newId := a], s.byEmail[email := newId]),
           Ok(SignedUp(SignupMessage, newId)),
           Some(OtpMail(email, VerifySubject, otp)))
  }

  /**
   * verifyEmail: unknown email fails; an account already verified succeeds
   * without change; otherwise the OTP checks decide, and only success
   * changes the record: verified, with the email OTP pair cleared.
   */
  function VerifyEmail(s: Store, email: Email, otp: string, now: int): (r: Step)
    requires Valid(s)
    ensures Valid(r.store) && Evolves(s, r.store) && r.mail.None?
    ensures r.result.Err? ==> r.store == s
    ensures email !in s.byEmail ==> r.result == Err(UserNotFound)
    ensures email in s.byEmail ==>
              var a := s.users[s.byEmail[email]];
              var v := CheckOtp(a.emailOtp, a.emailOtpExpiresAt, otp, now);
              && (a.emailVerified ==> r.store == s && r.result == Ok(Message(AlreadyVerifiedMessage)))
              && (!a.emailVerified && v != Accepted ==> r.result == Err(OtpError(v)))
              && (!a.emailVerified && v == Accepted ==>
                    && r.result == Ok(Message(VerifiedMessage))
                    && Updated(s, r.store, a.(emailVerified := true, emailOtp := None, emailOtpExpiresAt := None)))
  {
    match FindByEmail(s, email)
    case None => Step(s, Err(UserNotFound), None)
    case Some(a) =>
      if a.emailVerified then Step(s, Ok(Message(AlreadyVerifiedMessage)), None)
      else
        var v := CheckOtp(a.emailOtp, a.emailOtpExpiresAt, otp, now);
        if v != Accepted then Step(s, Err(OtpError(v)), None)
        else Step(Put(s, a.(emailVerified := true, emailOtp := None, emailOtpExpiresAt := None)),
                  Ok(Message(VerifiedMessage)), None)
  }

  /**
   * login: unknown email and wrong password fail alike; an unverified
   * account is refused; otherwise a token pair is issued and the only change
   * is the digest of the new refresh token, replacing any earlier one.
   * `hashing` says how that digest is taken (the service hashes the token
   * itself, `BcryptOfToken`).
   */
  function Login(s: Store, config: Config, hashing: SessionHashing, email: Email, password: string, now: int): (r: Step)
    requires Valid(s)
    ensures Valid(r.store) && Evolves(s, r.store) && r.mail.None?
    ensures r.result.Err? ==> r.store == s
    ensures email !in s.byEmail ==> r.result == Err(InvalidCredentials)
    ensures email in s.byEmail ==>
              var a := s.users[s.byEmail[email]];
              var issued := IssueTokens(config, a, now);
              && (!Matches(password, a.password) ==> r.result == Err(InvalidCredentials))
              && (Matches(password, a.password) && !a.emailVerified ==> r.result == Err(EmailNotVerified))
              && (Matches(password, a.password) && a.emailVerified && issued.Err? ==>
                    r.result == Err(issued.error))
              && (Matches(password, a.password) && a.emailVerified && issued.Ok? ==>
                    && r.result == Ok(LoggedIn(LoginMessage, UserView(a.id, a.email, a.userName, a.role), issued.value))
                    && Updated(s, r.store, a.(refreshTokenHash := Some(HashToken(hashing, issued.value.refreshToken)))))
  {
    match FindByEmail(s, email)
    case None => Step(s, Err(InvalidCredentials), None)
    case Some(a) =>
      if !Matches(password, a.password) then Step(s, Err(InvalidCredentials), None)
      else if !a.emailVerified then Step(s, Err(EmailNotVerified), None)
      else match IssueTokens(config, a, now)
        case Err(e) => Step(s, Err(e), None)
        case Ok(tokens) =>
          Step(Put(s, a.(refreshTokenHash := Some(HashToken(hashing, tokens.refreshToken)))),
               Ok(LoggedIn(LoginMessage, UserView(a.id, a.email, a.userName, a.role), tokens)), None)
  }

  /** The presented refresh token matches the session digest stored for `userId`. */
  ghost predicate SessionMatches(s: Store, userId: Id, presented: Token): (ok: bool)
    ensures userId !in s.users || s.users[userId].refreshTokenHash.None? ==> !ok
    ensures userId in s.users && s.users[userId].refreshTokenHash.Some? ==>
              var d := s.users[userId].refreshTokenHash.value;
              && (d.TokenDigest? ==> (ok <==> CompactPrefix(presented) == d.digest.input))
              && (d.Sha256Digest? ==> (ok <==> presented == d.token))
  {
    userId in s.users && s.users[userId].refreshTokenHash.Some?
    && MatchesToken(presented, s.users[userId].refreshTokenHash.value)
  }

  /**
   * refreshTokens: denied unless the account exists, has a session and the
   * presented token matches its digest; on success the pair is reissued and
   * the stored digest replaced by that of the new refresh token, taken the
   * way `hashing` says.
   */
  function RefreshTokens(s: Store, config: Config, hashing: SessionHashing, userId: Id, presented: Token, now: int): (r: Step)
    requires Valid(s)
    ensures Valid(r.store) && Evolves(s, r.store) && r.mail.None?
    ensures r.result.Err? ==> r.store == s
    ensures !SessionMatches(s, userId, presented) ==> r.result == Err(AccessDenied)
    ensures SessionMatches(s, userId, presented) ==>
              var a := s.users[userId];
              var issued := IssueTokens(config, a, now);
              && (issued.Err? ==> r.result == Err(issued.error))
              && (issued.Ok? ==>
                    && r.result == Ok(Refreshed(issued.value))
                    && Updated(s, r.store, a.(refreshTokenHash := Some(HashToken(hashing, issued.value.refreshToken)))))
  {
    if userId !in s.users || s.users[userId].refreshTokenHash.None? then Step(s, Err(AccessDenied), None)
    else
      var a := s.users[userId];
      if !MatchesToken(presented, a.refreshTokenHash.value) then Step(s, Err(AccessDenied), None)
      else match IssueTokens(config, a, now)
        case Err(e) => Step(s, Err(e), None)
        case Ok(tokens) =>
          Step(Put(s, a.(refreshTokenHash := Some(HashToken(hashing, tokens.refreshToken)))), Ok(Refreshed(tokens)), None)
  }

  /** logout: the session digest is cleared and nothing else changes. */
  function Logout(s: Store, userId: Id): (r: Step)
    requires Valid(s) && userId in s.users
    ensures Valid(r.store) && Evolves(s, r.store) && r.mail.None?
    ensures r.result == Ok(Message(LogoutMessage))
    ensures Updated(s, r.store, s.users[userId].(refreshTokenHash := None))
  {
    Step(Put(s, s.users[userId].(refreshTokenHash := None)), Ok(Message(LogoutMessage)), None)
  }

  /**
   * forgotPassword: the same reply whatever the email; for a known email the
   * only change is a fresh reset OTP pair (six digits, ten minutes), which
   * is mailed to it.
   */
  function ForgotPassword(s: Store, email: Email, draw: nat, now: int): (r: Step)
    requires Valid(s)
    requires draw <= OtpMax(DefaultLength) - OtpMin(DefaultLength)
    ensures Valid(r.store) && Evolves(s, r.store)
    ensures r.result == Ok(Message(ForgotMessage))
    ensures email !in s.byEmail ==> r.store == s && r.mail.None?
    ensures email in s.byEmail ==>
              var a := s.users[s.byEmail[email]];
              && r.mail.Some? && r.mail.value.to == email && r.mail.value.subject == ResetSubject
              && |r.mail.value.otp| == DefaultLength && AllDigits(r.mail.value.otp) && r.mail.value.otp[0] != '0'
              && Updated(s, r.store, a.(resetOtp := Some(r.mail.value.otp), resetOtpExpiresAt := Some(now + 600000)))
  {
    match FindByEmail(s, email)
    case None => Step(s, Ok(Message(ForgotMessage)), None)
    case Some(a) =>
      var otp := GenerateOtp(DefaultLength, draw);
      var expires := OtpExpiry(now, DefaultMinutes);
      Step(Put(s, a.(resetOtp := Some(otp), resetOtpExpiresAt := Some(expires))),
           Ok(Message(ForgotMessage)), Some(OtpMail(email, ResetSubject, otp)))
  }

  /**
   * resetPassword: unknown email fails; then the OTP checks on the reset
   * pair decide; success sets the new password digest and clears the reset
   * pair and the session, leaving the verified flag alone.
   */
  function ResetPassword(s: Store, email: Email, otp: string, newPassword: string, now: int): (r: Step)
    requires Valid(s)
    ensures Valid(r.store) && Evolves(s, r.store) && r.mail.None?
    ensures r.result.Err? ==> r.store == s
    ensures email !in s.byEmail ==> r.result == Err(InvalidRequest)
    ensures email in s.byEmail ==>
              var a := s.users[s.byEmail[email]];
              var v := CheckOtp(a.resetOtp, a.resetOtpExpiresAt, otp, now);
              && (v != Accepted ==> r.result == Err(OtpError(v)))
              && (v == Accepted ==>
                    && r.result == Ok(Message(ResetMessage))
                    && Updated(s, r.store, a.(password := Hash(newPassword), resetOtp := None,
                                              resetOtpExpiresAt := None, refreshTokenHash := None)))
  {
    match FindByEmail(s, email)
    case None => Step(s, Err(InvalidRequest), None)
    case Some(a) =>
      var v := CheckOtp(a.resetOtp, a.resetOtpExpiresAt, otp, now);
      if v != Accepted then Step(s, Err(OtpError(v)), None)
      else Step(Put(s, a.(password := Hash(newPassword), resetOtp := None,
                          resetOtpExpiresAt := None, refreshTokenHash := None)),
                Ok(Message(ResetMessage)), None)
  }

  /**
   * changePassword: unknown id is denied; a wrong current password changes
   * nothing; success sets the new password digest and clears the session.
   */
  function ChangePassword(s: Store, userId: Id, currentPassword: string, newPassword: string): (r: Step)
    requires Valid(s)
    ensures Valid(r.store) && Evolves(s, r.store) && r.mail.None?
    ensures r.result.Err? ==> r.store == s
    ensures userId !in s.users ==> r.result == Err(AccessDenied)
    ensures userId in s.users && !Matches(currentPassword, s.users[userId].password) ==>
              r.result == Err(WrongCurrentPassword)
    ensures userId in s.users && Matches(currentPassword, s.users[userId].password) ==>
              && r.result == Ok(Message(ChangedMessage))
              && Updated(s, r.store, s.users[userId].(password := Hash(newPassword), refreshTokenHash := None))
  {
    if userId !in s.users then Step(s, Err(AccessDenied), None)
    else
      var a := s.users[userId];
      if !Matches(currentPassword, a.password) then Step(s, Err(WrongCurrentPassword), None)
      else Step(Put(s, a.(password := Hash(newPassword), refreshTokenHash := None)),
                Ok(Message(ChangedMessage)), None)
  }
}
