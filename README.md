# Account authentication of the NestJS starter, modelled in Dafny

This project models the account-authentication core of a NestJS service: the
`AuthService` state machine over the user table (signup, email verification by
one-time code, login, refresh-token rotation, logout, forgotten and changed
passwords), the one-time-code arithmetic it uses, the roles guard that gates
routes, and the JWT strategy that turns a signed access token back into the
request's user.

Layout, one module per component:

- `wrappers.dfy` — `Option` and `Result`.
- `hashing.dfy` — the bcrypt `hash`/`compare` pair: a digest records the first 72 characters of its secret, the only part bcrypt reads.
- `base64url.dfy` — the unpadded base64url encoding of token segments.
- `otp.dfy` — `generateOtp` (digit range, decimal numeral) and `otpExpiry`.
- `tokens.dfy` — the environment (`Config`), the two token signers, the first 72 characters of a token's compact form, and the two ways of storing a refresh-token digest (the token itself, as the service does, or its SHA-256 first).
- `jwt_strategy.dfy` — the strategy's constructor check and `validate`.
- `roles_guard.dfy` — `RolesGuard.canActivate`.
- `accounts.dfy` — the account record, the table with its unique email index, and its invariant.
- `auth_spec.dfy` — each service operation as a transition of the table (the reference definitions).
- `auth_service.dfy` — the `AuthService` class: the table as two map fields updated in place, each method proved equal to its transition.
- `auth_properties.dfy` — properties relating several operations.

Collaborators become inputs: the clock is an integer `now` in milliseconds, the
random part of an OTP is an integer `draw` in `[0, max - min]`, the id the
database assigns to a new record is `newId`, the environment is a `Config`, and
the OTP mail is returned as an `OtpMail` value, issued after the table write.

Every transition in `AuthSpec` also states that the table stays valid (records
filed under their id, an exact unique email index, OTP code and expiry set or
cleared together) and that it only evolves (`Accounts.Evolves`: no record
disappears, email, name, phone and role never change, a verified email stays
verified).

Where the code behaves otherwise than its messages and comments suggest, the
model follows the code:

- An OTP is still accepted at the instant it expires: the expiry test is `expiresAt < now` (`src/main/auth/auth.service.ts:94` and `:213`), so `expiresAt == now` passes.
- `resetPassword` for a known email without a pending reset code fails with "No OTP found" (`src/main/auth/auth.service.ts:211`); "Invalid request" is reserved for an unknown email (`:209`).
- A refresh token is stored as bcrypt of the whole token (`src/main/auth/auth.service.ts:145` and `:176`), and bcrypt reads only the first 72 bytes of its input. Those are the token's header and the start of its claims, the same for every token of the account. So refreshing does not revoke the earlier refresh token, and the access token and a token forged with the account's id are accepted too (see "## Findings").
- Failed OTP attempts never clear the stored pair (`src/main/auth/auth.service.ts:92-94` and `:211-213`): the same code remains usable until it succeeds or expires.

## Model

| member | source | states |
|---|---|---|
| `Hashing.Hash` | src/main/auth/auth.service.ts:18-20 | the digest of a secret is one that `compare` accepts for that secret |
| `Hashing.BcryptInput` | src/main/auth/auth.service.ts:18-24 | what bcrypt reads of a secret: the whole secret up to 72 characters, otherwise its first 72 |
| `Hashing.Matches` | src/main/auth/auth.service.ts:22-24 | `compare(raw, digest)`: a secret shorter than 72 characters matches exactly when it is the digested input; a longer one exactly when its first 72 characters are; a match is always a prefix of at most 72 characters |
| `Hashing.MatchesIffSameFirst72` | src/main/auth/auth.service.ts:22-24 | `compare(x, hash(y))` holds exactly when `x` and `y` agree on their first 72 characters |
| `Hashing.ShortSecretMatchesOnlyItself` | src/main/auth/auth.service.ts:22-24 | a secret shorter than 72 characters matches only the digest of itself |
| `Hashing.LongSecretsShareDigest` | src/main/auth/auth.service.ts:18-24 | two secrets of at least 72 characters with the same first 72 match each other's digest |
| `Otp.OtpMin` | src/common/utils/otp.ts:2 | `min` is positive and one tenth of `10^length` |
| `Otp.OtpMax` | src/common/utils/otp.ts:3 | `max` is at least `min` and one below `10 * min` |
| `Otp.OtpBoundsDigitCounts` | src/common/utils/otp.ts:2-4 | `min` and `max` are written with exactly `length` digits, `min - 1` with one fewer and `max + 1` with one more |
| `Otp.OtpRange` | src/common/utils/otp.ts:2-3 | `min = 10^(length-1)` and `max = 10^length - 1` satisfy `1 <= min <= max`, and the range holds `9 * min` codes |
| `Otp.DefaultOtpRange` | src/common/utils/otp.ts:1-3 | with the default length 6 the range is 100000 to 999999 |
| `Otp.DecimalString` | src/common/utils/otp.ts:4 | `String(n)` is a nonempty string of ASCII digits (that it reads back as `n` is `Otp.DecimalRoundTrip`) |
| `Otp.DecimalRoundTrip` | src/common/utils/otp.ts:4 | the numeral `String(n)` reads back as `n` |
| `Otp.DecimalLength` | src/common/utils/otp.ts:4 | a number in `[10^(k-1), 10^k)` is written with exactly `k` characters |
| `Otp.LeadingDigitNotZero` | src/common/utils/otp.ts:4 | the numeral of a positive number does not start with `0` |
| `Otp.GenerateOtp` | src/common/utils/otp.ts:1-5 | for `1 <= length <= 15`, the code has exactly `length` ASCII digits, no leading zero, and value `min + draw` in `[min, max]` |
| `Otp.GenerateOtpCoversRange` | src/common/utils/otp.ts:2-4 | for `1 <= length <= 15`, every `length`-digit numeral without a leading zero is the code of exactly the draw `value - min`, which lies in range |
| `Otp.OtpExpiry` | src/common/utils/otp.ts:7-9 | the expiry is later than `now` exactly when `minutes > 0`, and equal to `now` exactly when `minutes == 0` |
| `Otp.DefaultExpiry` | src/common/utils/otp.ts:7-8 | the default ten minutes give `now + 600000` ms |
| `Otp.ExpiryMonotone` | src/common/utils/otp.ts:8 | a longer lifetime never gives an earlier expiry |
| `Tokens.Present` | src/main/auth/auth.service.ts:28-43 | a secret passes the `!secret` test (at lines 28 and 43) exactly when it is neither unset nor the empty string |
| `Tokens.OrDefault` | src/main/auth/auth.service.ts:30 | an unset or empty variable falls back to the default lifetime, a set one is used as is |
| `Tokens.ClaimsOf` | src/main/auth/auth.service.ts:33 | the signed payload is `{sub: id, role, email}` |
| `Tokens.IssuedAt` | src/main/auth/auth.service.ts:32-38 | the issue time is the whole second containing `now` |
| `Tokens.SignAccessToken` | src/main/auth/auth.service.ts:26-39 | fails with "JWT_ACCESS_SECRET is missing" exactly when the secret is unset or empty; otherwise the token carries the account's claims, the access secret, the configured or default `15m` lifetime and the issue second |
| `Tokens.SignRefreshToken` | src/main/auth/auth.service.ts:41-54 | the same for the refresh secret and the default `7d` lifetime |
| `Tokens.RefreshTokensEqualIffSameSecond` | src/main/auth/auth.service.ts:41-54 | two refresh tokens for the same account are equal exactly when signed in the same second |
| `Tokens.AccessTokenIsNotARefreshToken` | src/main/auth/auth.service.ts:26-54 | with distinct secrets no access token equals a refresh token |
| `Base64Url.Encode` | src/main/auth/auth.service.ts:32-38 | a segment of `n` bytes is encoded in `(4n + 2) / 3` characters |
| `Base64Url.EncodePrefix` | src/main/auth/auth.service.ts:32-38 | the first `4k` characters of an encoding depend only on the first `3k` bytes |
| `Tokens.HeaderSegmentEncodesHeader` | src/main/auth/auth.service.ts:32-38 | the header segment of every token is the base64url of `{"alg":"HS256","typ":"JWT"}`, `eyJhbGciOiJIUzI1NiIsInR5cCI6IkpXVCJ9` |
| `Tokens.CompactForm` | src/main/auth/auth.service.ts:32-38 | the text `jwt.sign` returns starts with the header segment and a dot, ends with the signature, and its signature lies wholly beyond the first 72 characters |
| `Tokens.CompactPrefix` | src/main/auth/auth.service.ts:32-38 | the first 72 characters of a token's compact form are exactly 72 characters, computed from the header and the claims only |
| `Tokens.CompactPrefixIsWhatBcryptReads` | src/main/auth/auth.service.ts:145 | whatever follows the claims in the payload (`iat`, `exp`) and whatever the signature, bcrypt reads exactly `CompactPrefix` of the token |
| `Tokens.SharedIdPrefixSharesCompactPrefix` | src/main/auth/auth.service.ts:33 | two tokens whose ids agree on their first 19 characters have the same first 72 characters, whatever their other claims, issue time, lifetime and key |
| `Tokens.HashToken` | src/main/auth/auth.service.ts:145 | the stored digest of a refresh token is one `compare` accepts for that token |
| `Tokens.MatchesToken` | src/main/auth/auth.service.ts:168 | `compare(refreshToken, refreshTokenHash)`: against the digest of a token only the first 72 characters of the presented token count; against the corrected SHA-256 digest the whole token must be the same |
| `Tokens.BcryptOfTokenMatchesPrefix` | src/main/auth/auth.service.ts:168 | with the token itself hashed, a token matches exactly when its first 72 characters agree with those of the stored token |
| `Tokens.BcryptOfSha256MatchesOnlyItself` | src/main/auth/auth.service.ts:168 | with the token's SHA-256 hashed instead, a token matches only the digest of itself |
| `JwtStrategy.NewStrategy` | src/common/strategies/jwt.strategy.ts:7-17 | construction fails exactly when the access secret is unset or empty, and otherwise verifies with that secret |
| `JwtStrategy.Validate` | src/common/strategies/jwt.strategy.ts:19-21 | rebuilding the signer's payload from the user `validate` returns gives back the payload (`sub` becomes `userId`, `role` and `email` pass through) |
| `JwtStrategy.ValidateSignedAccessToken` | src/main/auth/auth.service.ts:33 | validating the payload of a signed access token recovers the account's id, role and email |
| `JwtStrategy.ValidateInjective` | src/common/strategies/jwt.strategy.ts:20 | distinct payloads validate to distinct users |
| `JwtStrategy.StrategyAgreesWithSigner` | src/common/strategies/jwt.strategy.ts:8-11 | the strategy can be built exactly when access tokens can be signed, and with the signing key |
| `RolesGuard.RequiredRoles` | src/common/guards/roles.guard.ts:10-13 | handler metadata, when set, is used; otherwise class metadata |
| `RolesGuard.CanActivate` | src/common/guards/roles.guard.ts:9-19 | no metadata allows; with metadata, allowed exactly when there is a user whose role is listed; no user is denied; an empty list denies everyone |
| `RolesGuard.HandlerRolesOverrideClass` | src/common/guards/roles.guard.ts:10-13 | with handler roles set, class roles have no effect |
| `RolesGuard.ClassRolesApplyWithoutHandler` | src/common/guards/roles.guard.ts:10-13 | without handler roles, class roles decide as handler roles would |
| `RolesGuard.AdminOnlyRoute` | src/main/auth/auth.controller.ts:64-71 | a user authenticated from a token signed for an account passes `@Roles('ADMIN')` exactly when the account's role is ADMIN |
| `Accounts.EmailsAreUnique` | src/main/auth/auth.service.ts:58-59 | in a valid table no two records share an email |
| `Accounts.FindByEmail` | src/main/auth/auth.service.ts:87 | lookup by email finds a record exactly when the email is registered, and it is that email's record |
| `Accounts.Put` | src/main/auth/auth.service.ts:96-103 | writing back a record with the same id and email keeps the table valid and changes that record only |
| `AuthSpec.CheckOtp` | src/main/auth/auth.service.ts:92-94 | the OTP decision in order: no (or empty) code or no expiry is "missing"; a stored code different from the presented one is a mismatch whatever the expiry; an equal code with `expiresAt < now` is expired; otherwise accepted |
| `AuthSpec.OtpError` | src/main/auth/auth.service.ts:211-213 | the three rejections raise "No OTP found", "Invalid OTP" and "OTP expired", each a bad request |
| `AuthSpec.IssueTokens` | src/main/auth/auth.service.ts:130-140 | succeeds exactly when both secrets are set; the access secret is checked first; both tokens carry the account's claims |
| `AuthSpec.Signup` | src/main/auth/auth.service.ts:57-84 | a taken email fails with "Email already exists" and changes nothing; otherwise exactly one record is added, matching the password, unverified, default role, a six-digit email OTP with expiry `now + 600000` set together, no reset pair, no session; the OTP is mailed |
| `AuthSpec.VerifyEmail` | src/main/auth/auth.service.ts:86-106 | unknown email fails; already verified succeeds and changes nothing; otherwise the OTP decision rules; every failure leaves the table unchanged; success only sets verified and clears the email OTP pair |
| `AuthSpec.Login` | src/main/auth/auth.service.ts:108-161 | unknown email and wrong password give "Invalid credentials"; then "Email not verified"; a missing secret fails; every failure changes nothing; success only replaces the session digest with that of the new refresh token, taken the given way |
| `AuthSpec.SessionMatches` | src/main/auth/auth.service.ts:166-169 | no account or no stored digest never matches; otherwise the presented token matches exactly when its first 72 characters equal the digested input, or, for the corrected digest, when it is the stored token |
| `AuthSpec.RefreshTokens` | src/main/auth/auth.service.ts:164-180 | no account, no session or a token the stored digest does not match gives "Access denied"; failures change nothing; success reissues the pair and only replaces the session digest, taken the given way |
| `AuthSpec.Logout` | src/main/auth/auth.service.ts:182-188 | only the session digest is cleared |
| `AuthSpec.ForgotPassword` | src/main/auth/auth.service.ts:190-205 | the reply is the same for every email; unknown email changes nothing; a known one only gets a six-digit reset OTP expiring at `now + 600000`, set together and mailed |
| `AuthSpec.ResetPassword` | src/main/auth/auth.service.ts:207-228 | unknown email is "Invalid request"; then the OTP decision on the reset pair; failures change nothing; success sets the new password digest and clears the reset pair and the session, keeping the verified flag |
| `AuthSpec.ChangePassword` | src/main/auth/auth.service.ts:230-246 | unknown id is "Access denied"; a wrong current password is refused and changes nothing; success only sets the new password digest and clears the session |
| `Auth.AuthService.Signup` | src/main/auth/auth.service.ts:57-84 | updates the table and returns the reply and mail exactly as `AuthSpec.Signup`, keeping the table valid |
| `Auth.AuthService.VerifyEmail` | src/main/auth/auth.service.ts:86-106 | updates the table and replies exactly as `AuthSpec.VerifyEmail` |
| `Auth.AuthService.Login` | src/main/auth/auth.service.ts:108-161 | updates the table and replies exactly as `AuthSpec.Login` with the token itself hashed |
| `Auth.AuthService.RefreshTokens` | src/main/auth/auth.service.ts:164-180 | updates the table and replies exactly as `AuthSpec.RefreshTokens` with the token itself hashed |
| `Auth.AuthService.Logout` | src/main/auth/auth.service.ts:182-188 | updates the table and replies exactly as `AuthSpec.Logout` |
| `Auth.AuthService.ForgotPassword` | src/main/auth/auth.service.ts:190-205 | updates the table and returns the reply and mail exactly as `AuthSpec.ForgotPassword` |
| `Auth.AuthService.ResetPassword` | src/main/auth/auth.service.ts:207-228 | updates the table and replies exactly as `AuthSpec.ResetPassword` |
| `Auth.AuthService.ChangePassword` | src/main/auth/auth.service.ts:230-246 | updates the table and replies exactly as `AuthSpec.ChangePassword` |
| `AuthProperties.LoginHidesUnknownEmail` | src/main/auth/auth.service.ts:121-124 | an unknown email and a wrong password give login the identical outcome and leave the table unchanged |
| `AuthProperties.ForgotPasswordHidesUnknownEmail` | src/main/auth/auth.service.ts:192-204 | forgotPassword gives every email the same reply |
| `AuthProperties.MismatchReportedBeforeExpiry` | src/main/auth/auth.service.ts:93-94 | a wrong code is "Invalid OTP" even when the stored code has expired |
| `AuthProperties.ExpiryInstantAccepted` | src/main/auth/auth.service.ts:94 | a code is accepted at `now == expiresAt` and expired one millisecond later |
| `AuthProperties.FailedVerifyKeepsOtp` | src/main/auth/auth.service.ts:92-94 | after a failed verifyEmail every later attempt fares as if it had not happened |
| `AuthProperties.FailedResetKeepsOtp` | src/main/auth/auth.service.ts:211-213 | after a failed resetPassword every later attempt fares as if it had not happened |
| `AuthProperties.VerifyEmailOnce` | src/main/auth/auth.service.ts:90 | after a successful verification every further verifyEmail replies "Email already verified" and changes nothing |
| `AuthProperties.SignupOtpVerifiesUntilExpiry` | src/main/auth/auth.service.ts:63-73 | the OTP mailed at signup verifies the account up to and including ten minutes later, and is "OTP expired" after |
| `AuthProperties.LoginBeforeVerificationRefused` | src/main/auth/auth.service.ts:126-128 | right after signup the correct password is refused with "Email not verified" |
| `AuthProperties.SignupVerifyLogin` | src/main/auth/auth.service.ts:130-134 | signup, verification in time and login with both secrets set succeed, and the access token validates to the new account's id, default role and email |
| `AuthProperties.RefreshRotation` | src/main/auth/auth.service.ts:174-177 | after a refresh accepts a token, the next refresh accepts exactly the tokens that match the digest of the newly issued refresh token |
| `AuthProperties.LoginStoresSession` | src/main/auth/auth.service.ts:143-146 | after a login the session digest is that of the returned refresh token, and both returned tokens carry the account's claims |
| `AuthProperties.StaleRefreshTokenAccepted` | src/main/auth/auth.service.ts:168-177 | as written: after login and a refresh in a later second, which issues a different token, the login's refresh token is still accepted |
| `AuthProperties.ExactDigestRotation` | src/main/auth/auth.service.ts:168-177 | corrected: after login and a refresh, the login's refresh token is accepted again exactly when both were signed in the same second |
| `AuthProperties.RefreshIgnoresTokenLifetime` | src/main/auth/auth.service.ts:165-169 | whether a refresh is accepted does not depend on the clock |
| `AuthProperties.AccessTokenAcceptedForRefresh` | src/main/auth/auth.service.ts:168-169 | as written: the access token from a login is accepted by refreshTokens |
| `AuthProperties.AccessTokenCannotRefresh` | src/main/auth/auth.service.ts:168-169 | corrected: with distinct secrets the access token from a login is refused by refreshTokens |
| `AuthProperties.ForgedTokenAccepted` | src/main/auth/auth.service.ts:164-169 | as written: after a login, any token whose id agrees with the account's on its first 19 characters is accepted, whatever its key |
| `AuthProperties.ForgedTokenRefused` | src/main/auth/auth.service.ts:164-169 | corrected: after a login, a token not signed with the refresh secret is refused |
| `AuthProperties.LogoutEndsSession` | src/main/auth/auth.service.ts:185 | after logout every refresh is "Access denied" |
| `AuthProperties.ResetPasswordEndsSession` | src/main/auth/auth.service.ts:223 | after a successful reset every refresh is "Access denied" |
| `AuthProperties.ChangePasswordEndsSession` | src/main/auth/auth.service.ts:241 | after a successful password change every refresh is "Access denied" |
| `AuthProperties.ResetPasswordReplacesPassword` | src/main/auth/auth.service.ts:215-220 | after a successful reset the digest matches the new password, and login with an old password is "Invalid credentials" exactly when it differs from the new one within the first 72 characters |

## Findings

| source | as written | input that shows it | evidently intended | confidence | as-written member | corrected member |
|---|---|---|---|---|---|---|
| src/main/auth/auth.service.ts:145,168,176 | the session digest is bcrypt of the whole token, and bcrypt reads only its first 72 bytes: the header and the start of the claims, equal for all tokens of the account | log in at `t0`, refresh with the returned token at `t1 >= t0 + 1000`, then present the login's token again | rotation: only the most recent refresh token is accepted | not executed | `AuthProperties.StaleRefreshTokenAccepted` | `AuthProperties.ExactDigestRotation` |
| src/main/auth/auth.service.ts:168 | the access token shares its first 72 bytes with the refresh token | log in, then call refreshTokens with the access token | only a refresh token is accepted | not executed | `AuthProperties.AccessTokenAcceptedForRefresh` | `AuthProperties.AccessTokenCannotRefresh` |
| src/main/auth/auth.service.ts:164-169 | the token is never verified, and its first 72 bytes follow from the first 19 characters of the id | after the victim logs in, present any string made of the fixed header and the base64url of `{"sub":"<id>"` | only a token signed with the refresh secret is accepted | not executed | `AuthProperties.ForgedTokenAccepted` | `AuthProperties.ForgedTokenRefused` |

The corrected behaviour is `AuthSpec.Login` and `AuthSpec.RefreshTokens` with `BcryptOfSha256`: bcrypt over the 64 hexadecimal characters of the token's SHA-256, which bcrypt reads in full. The `Auth.AuthService` class keeps the source's `BcryptOfToken`.

## Left out

- Mail: `MailService.sendOtpEmail` (SMTP transport and HTML template) is not part of this model; the mail is returned as a value after the table write, and a failed send, which the source would report after the write, is not modelled.
- bcrypt: salt, work factor and digest encoding. A digest records the first 72 characters of its secret, and characters stand for bytes: a secret with non-ASCII characters, which UTF-8 encodes in several bytes, reaches the 72-byte limit sooner than the model says.
- SHA-256 in the corrected refresh-token digest is taken to be collision-free.
- JSON Web Tokens: the signature, the `iat` and `exp` parts of the payload text, and signature verification. A token is the tuple it is signed from, and of its text only the first 72 characters are computed. The lifetime is kept as the configured string (`15m`, `7d`) and never parsed. Claim values are taken to be ASCII and to need no JSON escaping.
- A refresh token presented to `refreshTokens` is a `Token` value, not an arbitrary string. The source compares only the string's first 72 characters, so a string is accepted exactly when some token with those characters is; `Tokens.SharedIdPrefixSharesCompactPrefix` says which tokens those are.
- `Math.random` and its floating-point arithmetic become the integer `draw`; `Date.now` becomes `now`.
- Otp.GenerateOtp: requires `1 <= length <= 15`. For length 0 or less the source computes a fractional `min`. From 16 digits on its double arithmetic rounds `10 ** length - 1` up and can yield a code one digit too long, and from 22 digits `String` switches to exponent notation. The model represents neither; the service always asks for 6 digits.
- Otp.GenerateOtpCoversRange: the same range of lengths as `Otp.GenerateOtp`.
- The database: the id of a new record is the input `newId` (required unused), and the default role is taken to be `USER`; the schema is not part of this model. Concurrent read-then-write races between requests are not modelled.
- AuthSpec.Logout: requires the account to exist; for an unknown id the database update throws, which is not modelled.
- Auth.AuthService.Logout: the same precondition as `AuthSpec.Logout`.
- Request validation (DTO annotations such as the six-character minimum on passwords), the controller, the Nest module wiring and the `GetUser` decorator are not part of this model; the operations accept any strings.
- The reflector's metadata lookup and the execution context of the roles guard become the inputs `handler`, `cls` and `user`.
