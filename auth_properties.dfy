/**
 * Properties of the auth service that relate several operations or several
 * inputs: what a caller can and cannot learn, how sessions end, how refresh
 * tokens rotate, and the signup, verify and login sequence.
 */
module AuthProperties {
  import opened Wrappers
  import opened Hashing
  import opened Otp
  import opened Tokens
  import opened JwtStrategy
  import opened Accounts
  import opened AuthSpec

  /** An unknown email and a wrong password give login the same outcome, and neither changes anything. */
  lemma LoginHidesUnknownEmail(s: Store, config: Config, hashing: SessionHashing, unknown: Email, p1: string,
                               known: Email, p2: string, now: int)
    requires Valid(s)
    requires unknown !in s.byEmail
    requires known in s.byEmail && !Matches(p2, s.users[s.byEmail[known]].password)
    ensures Login(s, config, hashing, unknown, p1, now) == Login(s, config, hashing, known, p2, now) == Step(s, Err(InvalidCredentials), None)
  {
  }

  /** forgotPassword answers every email with the same reply. */
  lemma ForgotPasswordHidesUnknownEmail(s: Store, e1: Email, d1: nat, t1: int, e2: Email, d2: nat, t2: int)
    requires Valid(s)
    requires d1 <= OtpMax(DefaultLength) - OtpMin(DefaultLength)
    requires d2 <= OtpMax(DefaultLength) - OtpMin(DefaultLength)
    ensures ForgotPassword(s, e1, d1, t1).result == ForgotPassword(s, e2, d2, t2).result
  {
  }

  /** OTP checks: a wrong code is reported as invalid even when the stored OTP has also expired. */
  lemma MismatchReportedBeforeExpiry(code: string, expiresAt: int, presented: string, now: int)
    requires code != "" && code != presented && expiresAt < now
    ensures CheckOtp(Some(code), Some(expiresAt), presented, now) == Mismatch
    ensures OtpError(CheckOtp(Some(code), Some(expiresAt), presented, now)) == InvalidOtp
  {
  }

  /** OTP checks: the code is still accepted at the very instant it expires, and refused one millisecond later. */
  lemma ExpiryInstantAccepted(code: string, expiresAt: int)
    requires code != ""
    ensures CheckOtp(Some(code), Some(expiresAt), code, expiresAt) == Accepted
    ensures CheckOtp(Some(code), Some(expiresAt), code, expiresAt + 1) == Expired
  {
  }

  /** A failed verifyEmail leaves the OTP pair in place: any later attempt fares as if the failure had not happened. */
  lemma FailedVerifyKeepsOtp(s: Store, email: Email, otp: string, now: int, otp': string, now': int)
    requires Valid(s)
    requires VerifyEmail(s, email, otp, now).result.Err?
    ensures VerifyEmail(VerifyEmail(s, email, otp, now).store, email, otp', now') == VerifyEmail(s, email, otp', now')
  {
  }

  /** A failed resetPassword leaves the reset OTP pair in place in the same way. */
  lemma FailedResetKeepsOtp(s: Store, email: Email, otp: string, pw: string, now: int,
                            otp': string, pw': string, now': int)
    requires Valid(s)
    requires ResetPassword(s, email, otp, pw, now).result.Err?
    ensures ResetPassword(ResetPassword(s, email, otp, pw, now).store, email, otp', pw', now')
            == ResetPassword(s, email, otp', pw', now')
  {
  }

  /** After a successful verifyEmail, any further verifyEmail reports "already verified" and changes nothing. */
  lemma VerifyEmailOnce(s: Store, email: Email, otp: string, now: int, otp': string, now': int)
    requires Valid(s)
    requires VerifyEmail(s, email, otp, now).result.Ok?
    ensures var s' := VerifyEmail(s, email, otp, now).store;
            VerifyEmail(s', email, otp', now') == Step(s', Ok(Message(AlreadyVerifiedMessage)), None)
  {
    var s' := VerifyEmail(s, email, otp, now).store;
    assert email in s.byEmail;
    assert s'.users[s'.byEmail[email]].emailVerified;
  }

  /**
   * After signup, the OTP mailed to the new address verifies it at any time
   * up to and including its expiry ten minutes later, and is reported
   * expired after that.
   */
  lemma SignupOtpVerifiesUntilExpiry(s: Store, email: Email, password: string, userName: Option<string>,
                                     phone: string, newId: Id, draw: nat, now: int, later: int)
    requires Valid(s) && newId !in s.users && email !in s.byEmail
    requires draw <= OtpMax(DefaultLength) - OtpMin(DefaultLength)
    ensures var signup := Signup(s, email, password, userName, phone, newId, draw, now);
            var verify := VerifyEmail(signup.store, email, signup.mail.value.otp, later);
            && (later <= now + 600000 ==> verify.result == Ok(Message(VerifiedMessage))
                                          && verify.store.users[newId].emailVerified)
            && (later > now + 600000 ==> verify.result == Err(OtpExpired))
  {
    var signup := Signup(s, email, password, userName, phone, newId, draw, now);
    var a := signup.store.users[newId];
    assert signup.store.byEmail[email] == newId;
    assert a.emailOtp == Some(signup.mail.value.otp);
  }

  /** Right after signup the password is correct but login is refused until the email is verified. */
  lemma LoginBeforeVerificationRefused(s: Store, config: Config, hashing: SessionHashing, email: Email, password: string,
                                       userName: Option<string>, phone: string, newId: Id, draw: nat,
                                       now: int, later: int)
    requires Valid(s) && newId !in s.users && email !in s.byEmail
    requires draw <= OtpMax(DefaultLength) - OtpMin(DefaultLength)
    ensures var signup := Signup(s, email, password, userName, phone, newId, draw, now);
            Login(signup.store, config, hashing, email, password, later).result == Err(EmailNotVerified)
  {
    var signup := Signup(s, email, password, userName, phone, newId, draw, now);
    assert signup.store.byEmail[email] == newId;
  }

  /**
   * Signup, then verifyEmail with the mailed OTP within its lifetime, then
   * login with the same password: with both secrets set, login succeeds and
   * its access token validates to the new account's id, default role and email.
   */
  lemma SignupVerifyLogin(s: Store, config: Config, hashing: SessionHashing, email: Email, password: string,
                          userName: Option<string>, phone: string, newId: Id, draw: nat,
                          now: int, t1: int, t2: int)
    requires Valid(s) && newId !in s.users && email !in s.byEmail
    requires draw <= OtpMax(DefaultLength) - OtpMin(DefaultLength)
    requires t1 <= now + 600000
    requires Present(config.accessSecret) && Present(config.refreshSecret)
    ensures var signup := Signup(s, email, password, userName, phone, newId, draw, now);
            var verify := VerifyEmail(signup.store, email, signup.mail.value.otp, t1);
            var login := Login(verify.store, config, hashing, email, password, t2);
            && login.result.Ok? && login.result.value.LoggedIn?
            && Validate(login.result.value.tokens.accessToken.payload) == Principal(newId, DefaultRole, email)
  {
    var signup := Signup(s, email, password, userName, phone, newId, draw, now);
    SignupOtpVerifiesUntilExpiry(s, email, password, userName, phone, newId, draw, now, t1);
    var verify := VerifyEmail(signup.store, email, signup.mail.value.otp, t1);
    assert verify.store.byEmail[email] == newId;
    assert verify.store.users[newId].password == signup.store.users[newId].password;
  }

  /**
   * Rotation: once refreshTokens has accepted a token, the next call accepts
   * exactly the tokens that match the digest of the refresh token it just
   * issued.
   */
  lemma RefreshRotation(s: Store, config: Config, hashing: SessionHashing, userId: Id, presented: Token,
                        next: Token, t1: int, t2: int)
    requires Valid(s)
    requires RefreshTokens(s, config, hashing, userId, presented, t1).result.Ok?
    ensures var first := RefreshTokens(s, config, hashing, userId, presented, t1);
            RefreshTokens(first.store, config, hashing, userId, next, t2).result.Ok?
            <==> MatchesToken(next, HashToken(hashing, first.result.value.tokens.refreshToken))
  {
    var first := RefreshTokens(s, config, hashing, userId, presented, t1);
    assert SessionMatches(s, userId, presented);
    assert first.store.users[userId].refreshTokenHash == Some(HashToken(hashing, first.result.value.tokens.refreshToken));
  }

  /** After a successful login, the account's session digest is that of the refresh token login returned. */
  lemma LoginStoresSession(s: Store, config: Config, hashing: SessionHashing, email: Email, password: string, t0: int)
    requires Valid(s)
    requires Login(s, config, hashing, email, password, t0).result.Ok?
    ensures var login := Login(s, config, hashing, email, password, t0);
            && email in s.byEmail && s.byEmail[email] in login.store.users
            && login.result.value.LoggedIn?
            && login.store.users[s.byEmail[email]].refreshTokenHash
               == Some(HashToken(hashing, login.result.value.tokens.refreshToken))
            && login.result.value.tokens.refreshToken.payload == login.result.value.tokens.accessToken.payload
               == ClaimsOf(s.byEmail[email], s.users[s.byEmail[email]].role, email)
  {
    var login := Login(s, config, hashing, email, password, t0);
    var id := s.byEmail[email];
    assert login.store.users[id] == s.users[id].(refreshTokenHash := Some(HashToken(hashing, login.result.value.tokens.refreshToken)));
  }

  /**
   * As written (the token itself is hashed): after login and one refresh,
   * the refresh token login returned is still accepted, at any later time,
   * although a newer one has been issued in its place.
   */
  lemma StaleRefreshTokenAccepted(s: Store, config: Config, email: Email, password: string, t0: int, t1: int, t2: int)
    requires Valid(s)
    requires Login(s, config, BcryptOfToken, email, password, t0).result.Ok?
    ensures var login := Login(s, config, BcryptOfToken, email, password, t0);
            var id := s.byEmail[email];
            var issued := login.result.value.tokens.refreshToken;
            var first := RefreshTokens(login.store, config, BcryptOfToken, id, issued, t1);
            && first.result.Ok?
            && (t0 / 1000 != t1 / 1000 ==> issued != first.result.value.tokens.refreshToken)
            && RefreshTokens(first.store, config, BcryptOfToken, id, issued, t2).result.Ok?
  {
    var login := Login(s, config, BcryptOfToken, email, password, t0);
    LoginStoresSession(s, config, BcryptOfToken, email, password, t0);
    var id := s.byEmail[email];
    var a := s.users[id];
    var issued := login.result.value.tokens.refreshToken;
    var first := RefreshTokens(login.store, config, BcryptOfToken, id, issued, t1);
    RefreshRotation(login.store, config, BcryptOfToken, id, issued, issued, t1, t2);
    RefreshTokensEqualIffSameSecond(config, a.id, a.role, a.email, t0, t1);
  }

  /**
   * Corrected (a SHA-256 of the token is hashed): after login and one
   * refresh, the refresh token login returned is accepted again exactly when
   * both were signed within the same second, that is, when it is the very
   * token the refresh reissued.
   */
  lemma ExactDigestRotation(s: Store, config: Config, email: Email, password: string, t0: int, t1: int, t2: int)
    requires Valid(s)
    requires Login(s, config, BcryptOfSha256, email, password, t0).result.Ok?
    ensures var login := Login(s, config, BcryptOfSha256, email, password, t0);
            var id := s.byEmail[email];
            var issued := login.result.value.tokens.refreshToken;
            var first := RefreshTokens(login.store, config, BcryptOfSha256, id, issued, t1);
            && first.result.Ok?
            && (RefreshTokens(first.store, config, BcryptOfSha256, id, issued, t2).result.Ok? <==> t0 / 1000 == t1 / 1000)
  {
    var login := Login(s, config, BcryptOfSha256, email, password, t0);
    LoginStoresSession(s, config, BcryptOfSha256, email, password, t0);
    var id := s.byEmail[email];
    var a := s.users[id];
    var issued := login.result.value.tokens.refreshToken;
    RefreshRotation(login.store, config, BcryptOfSha256, id, issued, issued, t1, t2);
    RefreshTokensEqualIffSameSecond(config, a.id, a.role, a.email, t0, t1);
  }

  /**
   * refreshTokens only compares the presented token with the stored digest:
   * whether it is accepted does not depend on the clock, so a refresh token
   * past its own lifetime is still accepted while it matches.
   */
  lemma RefreshIgnoresTokenLifetime(s: Store, config: Config, hashing: SessionHashing, userId: Id, presented: Token,
                                    t1: int, t2: int)
    requires Valid(s)
    ensures RefreshTokens(s, config, hashing, userId, presented, t1).result.Ok?
            <==> RefreshTokens(s, config, hashing, userId, presented, t2).result.Ok?
  {
  }

  /** As written: the access token from a login is accepted by refreshTokens, whatever the two secrets. */
  lemma AccessTokenAcceptedForRefresh(s: Store, config: Config, email: Email, password: string, t0: int, t1: int)
    requires Valid(s)
    requires Login(s, config, BcryptOfToken, email, password, t0).result.Ok?
    ensures var login := Login(s, config, BcryptOfToken, email, password, t0);
            RefreshTokens(login.store, config, BcryptOfToken, s.byEmail[email], login.result.value.tokens.accessToken, t1)
              .result.Ok?
  {
    LoginStoresSession(s, config, BcryptOfToken, email, password, t0);
  }

  /** Corrected: with distinct secrets, the access token from a login is refused by refreshTokens. */
  lemma AccessTokenCannotRefresh(s: Store, config: Config, email: Email, password: string, t0: int, t1: int)
    requires Valid(s)
    requires config.accessSecret != config.refreshSecret
    requires Login(s, config, BcryptOfSha256, email, password, t0).result.Ok?
    ensures var login := Login(s, config, BcryptOfSha256, email, password, t0);
            RefreshTokens(login.store, config, BcryptOfSha256, s.byEmail[email], login.result.value.tokens.accessToken, t1)
              .result == Err(AccessDenied)
  {
    LoginStoresSession(s, config, BcryptOfSha256, email, password, t0);
  }

  /**
   * As written: after a login, refreshTokens accepts any token whose id
   * agrees with the account's id on its first 19 characters, whatever its
   * other claims, issue time, lifetime and signing key: the session can be
   * taken over without any secret.
   */
  lemma ForgedTokenAccepted(s: Store, config: Config, email: Email, password: string, t0: int,
                            forged: Token, t1: int)
    requires Valid(s)
    requires Login(s, config, BcryptOfToken, email, password, t0).result.Ok?
    requires |s.byEmail[email]| >= 19 && |forged.payload.sub| >= 19
    requires forged.payload.sub[..19] == s.byEmail[email][..19]
    ensures var login := Login(s, config, BcryptOfToken, email, password, t0);
            RefreshTokens(login.store, config, BcryptOfToken, s.byEmail[email], forged, t1).result.Ok?
  {
    LoginStoresSession(s, config, BcryptOfToken, email, password, t0);
    var login := Login(s, config, BcryptOfToken, email, password, t0);
    SharedIdPrefixSharesCompactPrefix(forged, login.result.value.tokens.refreshToken);
  }

  /** Corrected: after a login, a token not signed with the refresh secret is refused. */
  lemma ForgedTokenRefused(s: Store, config: Config, email: Email, password: string, t0: int,
                           forged: Token, t1: int)
    requires Valid(s)
    requires Login(s, config, BcryptOfSha256, email, password, t0).result.Ok?
    requires forged.secret != config.refreshSecret.value
    ensures var login := Login(s, config, BcryptOfSha256, email, password, t0);
            RefreshTokens(login.store, config, BcryptOfSha256, s.byEmail[email], forged, t1).result == Err(AccessDenied)
  {
    LoginStoresSession(s, config, BcryptOfSha256, email, password, t0);
  }

  /** After logout no refresh token is accepted for the account. */
  lemma LogoutEndsSession(s: Store, config: Config, hashing: SessionHashing, userId: Id, presented: Token, now: int)
    requires Valid(s) && userId in s.users
    ensures RefreshTokens(Logout(s, userId).store, config, hashing, userId, presented, now).result == Err(AccessDenied)
  {
  }

  /** After a successful resetPassword no refresh token is accepted for the account. */
  lemma ResetPasswordEndsSession(s: Store, config: Config, hashing: SessionHashing, email: Email, otp: string, pw: string, now: int,
                                 presented: Token, now': int)
    requires Valid(s)
    requires ResetPassword(s, email, otp, pw, now).result.Ok?
    ensures RefreshTokens(ResetPassword(s, email, otp, pw, now).store, config, hashing, s.byEmail[email], presented, now').result
            == Err(AccessDenied)
  {
  }

  /** After a successful changePassword no refresh token is accepted for the account. */
  lemma ChangePasswordEndsSession(s: Store, config: Config, hashing: SessionHashing, userId: Id, current: string, pw: string,
                                  presented: Token, now: int)
    requires Valid(s)
    requires ChangePassword(s, userId, current, pw).result.Ok?
    ensures RefreshTokens(ChangePassword(s, userId, current, pw).store, config, hashing, userId, presented, now).result
            == Err(AccessDenied)
  {
  }

  /**
   * After a successful resetPassword the stored digest is that of the new
   * password, and login refuses an old password exactly when it differs from
   * the new one within the first 72 characters, the part bcrypt reads.
   */
  lemma ResetPasswordReplacesPassword(s: Store, config: Config, hashing: SessionHashing, email: Email, otp: string,
                                      pw: string, now: int, oldPw: string, now': int)
    requires Valid(s)
    requires ResetPassword(s, email, otp, pw, now).result.Ok?
    ensures var s' := ResetPassword(s, email, otp, pw, now).store;
            && Matches(pw, s'.users[s.byEmail[email]].password)
            && (Login(s', config, hashing, email, oldPw, now').result == Err(InvalidCredentials)
                <==> BcryptInput(oldPw) != BcryptInput(pw))
  {
    var s' := ResetPassword(s, email, otp, pw, now).store;
    assert s'.byEmail[email] == s.byEmail[email];
  }
}
