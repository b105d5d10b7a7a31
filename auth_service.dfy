/**
 * The auth service as the object the application uses: it holds the user
 * table (records by id and the email index) and updates it in place. Every
 * method reads a record, checks its guards and writes back, and is proved to
 * do exactly what the matching transition of `AuthSpec` describes. The clock
 * (`now`, milliseconds), the random draw of an OTP and the id the database
 * assigns are inputs; the mail to send is returned. A refresh token is
 * stored as the source stores it, as bcrypt of the token itself
 * (`BcryptOfToken`).
 */
module Auth {
  import opened Wrappers
  import opened Hashing
  import opened Otp
  import opened Tokens
  import opened Accounts
  import opened AuthSpec

  class AuthService {
    var users: map<Id, Account>
    var byEmail: map<Email, Id>
    /** The environment the token signers read. */
    const config: Config

    /** The table as a value. */
    function State(): Store
      reads this
    {
      Store(users, byEmail)
    }

    ghost predicate Valid()
      reads this
    {
      Accounts.Valid(State())
    }

    constructor (config: Config)
      ensures Valid() && State() == Store(map[], map[]) && this.config == config
    {
      users := map[];
      byEmail := map[];
      this.config := config;
    }

    /** signup; `newId` is the id the database assigns, `draw` the random part of the OTP. */
    method Signup(email: Email, password: string, userName: Option<string>, phone: string,
                  newId: Id, draw: nat, now: int)
      returns (r: Result<Reply, AuthError>, mail: Option<OtpMail>)
      requires Valid()
      requires newId !in users
      requires draw <= OtpMax(DefaultLength) - OtpMin(DefaultLength)
      modifies this
      ensures Step(State(), r, mail) == AuthSpec.Signup(old(State()), email, password, userName, phone, newId, draw, now)
      ensures Valid()
    {
      if email in byEmail {
        return Err(EmailTaken), None;
      }
      var passwordHash := Hash(password);
      var otp := GenerateOtp(DefaultLength, draw);
      var expires := OtpExpiry(now, DefaultMinutes);
      var user := Account(newId, email, userName, phone, passwordHash, DefaultRole, false,
                          Some(otp), Some(expires), None, None, None);
      users := users[newId := user];
      byEmail := byEmail[email := newId];
      r := Ok(SignedUp(SignupMessage, newId));
      mail := Some(OtpMail(email, VerifySubject, otp));
    }

    /** verifyEmail. */
    method VerifyEmail(email: Email, otp: string, now: int) returns (r: Result<Reply, AuthError>)
      requires Valid()
      modifies this
      ensures Step(State(), r, None) == AuthSpec.VerifyEmail(old(State()), email, otp, now)
      ensures Valid()
    {
      if email !in byEmail {
        return Err(UserNotFound);
      }
      var user := users[byEmail[email]];
      if user.emailVerified {
        return Ok(Message(AlreadyVerifiedMessage));
      }
      var verdict := CheckOtp(user.emailOtp, user.emailOtpExpiresAt, otp, now);
      if verdict != Accepted {
        return Err(OtpError(verdict));
      }
      users := users[user.id := user.(emailVerified := true, emailOtp := None, emailOtpExpiresAt := None)];
      r := Ok(Message(VerifiedMessage));
    }

    /** login. */
    method Login(email: Email, password: string, now: int) returns (r: Result<Reply, AuthError>)
      requires Valid()
      modifies this
      ensures Step(State(), r, None) == AuthSpec.Login(old(State()), config, BcryptOfToken, email, password, now)
      ensures Valid()
    {
      if email !in byEmail {
        return Err(InvalidCredentials);
      }
      var user := users[byEmail[email]];
      if !Matches(password, user.password) {
        return Err(InvalidCredentials);
      }
      if !user.emailVerified {
        return Err(EmailNotVerified);
      }
      var accessToken := SignAccessToken(config, user.id, user.role, user.email, now);
      if accessToken.Err? {
        return Err(ServerError(accessToken.error));
      }
      var refreshToken := SignRefreshToken(config, user.id, user.role, user.email, now);
      if refreshToken.Err? {
        return Err(ServerError(refreshToken.error));
      }
      users := users[user.id := user.(refreshTokenHash := Some(HashToken(BcryptOfToken, refreshToken.value)))];
      var tokens := TokenPair(accessToken.value, refreshToken.value);
      r := Ok(LoggedIn(LoginMessage, UserView(user.id, user.email, user.userName, user.role), tokens));
    }

    /** refreshTokens. */
    method RefreshTokens(userId: Id, refreshToken: Token, now: int) returns (r: Result<Reply, AuthError>)
      requires Valid()
      modifies this
      ensures Step(State(), r, None) == AuthSpec.RefreshTokens(old(State()), config, BcryptOfToken, userId, refreshToken, now)
      ensures Valid()
    {
      if userId !in users || users[userId].refreshTokenHash.None? {
        return Err(AccessDenied);
      }
      var user := users[userId];
      if !MatchesToken(refreshToken, user.refreshTokenHash.value) {
        return Err(AccessDenied);
      }
      var accessToken := SignAccessToken(config, user.id, user.role, user.email, now);
      if accessToken.Err? {
        return Err(ServerError(accessToken.error));
      }
      var newRefreshToken := SignRefreshToken(config, user.id, user.role, user.email, now);
      if newRefreshToken.Err? {
        return Err(ServerError(newRefreshToken.error));
      }
      users := users[user.id := user.(refreshTokenHash := Some(HashToken(BcryptOfToken, newRefreshToken.value)))];
      r := Ok(Refreshed(TokenPair(accessToken.value, newRefreshToken.value)));
    }

    /** logout, for an account that exists. */
    method Logout(userId: Id) returns (r: Result<Reply, AuthError>)
      requires Valid() && userId in users
      modifies this
      ensures Step(State(), r, None) == AuthSpec.Logout(old(State()), userId)
      ensures Valid()
    {
      users := users[userId := users[userId].(refreshTokenHash := None)];
      r := Ok(Message(LogoutMessage));
    }

    /** forgotPassword; `draw` is the random part of the OTP. */
    method ForgotPassword(email: Email, draw: nat, now: int) returns (r: Result<Reply, AuthError>, mail: Option<OtpMail>)
      requires Valid()
      requires draw <= OtpMax(DefaultLength) - OtpMin(DefaultLength)
      modifies this
      ensures Step(State(), r, mail) == AuthSpec.ForgotPassword(old(State()), email, draw, now)
      ensures Valid()
    {
      if email !in byEmail {
        return Ok(Message(ForgotMessage)), None;
      }
      var user := users[byEmail[email]];
      var otp := GenerateOtp(DefaultLength, draw);
      var expires := OtpExpiry(now, DefaultMinutes);
      users := users[user.id := user.(resetOtp := Some(otp), resetOtpExpiresAt := Some(expires))];
      r := Ok(Message(ForgotMessage));
      mail := Some(OtpMail(email, ResetSubject, otp));
    }

    /** resetPassword. */
    method ResetPassword(email: Email, otp: string, newPassword: string, now: int) returns (r: Result<Reply, AuthError>)
      requires Valid()
      modifies this
      ensures Step(State(), r, None) == AuthSpec.ResetPassword(old(State()), email, otp, newPassword, now)
      ensures Valid()
    {
      if email !in byEmail {
        return Err(InvalidRequest);
      }
      var user := users[byEmail[email]];
      var verdict := CheckOtp(user.resetOtp, user.resetOtpExpiresAt, otp, now);
      if verdict != Accepted {
        return Err(OtpError(verdict));
      }
      var newHash := Hash(newPassword);
      users := users[user.id := user.(password := newHash, resetOtp := None,
                                      resetOtpExpiresAt := None, refreshTokenHash := None)];
      r := Ok(Message(ResetMessage));
    }

    /** changePassword. */
    method ChangePassword(userId: Id, currentPassword: string, newPassword: string) returns (r: Result<Reply, AuthError>)
      requires Valid()
      modifies this
      ensures Step(State(), r, None) == AuthSpec.ChangePassword(old(State()), userId, currentPassword, newPassword)
      ensures Valid()
    {
      if userId !in users {
        return Err(AccessDenied);
      }
      var user := users[userId];
      if !Matches(currentPassword, user.password) {
        return Err(WrongCurrentPassword);
      }
      users := users[userId := user.(password := Hash(newPassword), refreshTokenHash := None)];
      r := Ok(Message(ChangedMessage));
    }
  }
}
