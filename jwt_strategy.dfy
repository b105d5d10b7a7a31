/**
 * The passport JWT strategy: its constructor refuses to start without an
 * access secret, and `validate` turns the claims of a verified access token
 * into the request's user. Extracting the bearer token and checking the
 * signature are done by the passport library and are not modelled.
 */
module JwtStrategy {
  import opened Wrappers
  import opened Tokens

  /** `req.user` as `validate` builds it. */
  datatype Principal = Principal(userId: string, role: string, email: string)

  /** A constructed strategy, holding the key it verifies tokens with. */
  datatype Strategy = Strategy(secretOrKey: string)

  const SecretNotDefined := "JWT_ACCESS_SECRET is not defined in environment variables"

  /** `new JwtStrategy()` with the value of JWT_ACCESS_SECRET. */
  function NewStrategy(accessSecret: Option<string>): (r: Result<Strategy, string>)
    ensures r.Ok? <==> Present(accessSecret)
    ensures r.Ok? ==> r.value.secretOrKey == accessSecret.value
    ensures r.Err? ==> r.error == SecretNotDefined
  {
    if !Present(accessSecret) then Err(SecretNotDefined) else Ok(Strategy(accessSecret.value))
  }

  /** validate(payload): the user the claims name; the signer's payload of that user gives the claims back. */
  function Validate(payload: Payload): (user: Principal)
    ensures ClaimsOf(user.userId, user.role, user.email) == payload
  {
    Principal(payload.sub, payload.role, payload.email)
  }

  /** Validating what the signer put in an access token recovers the account's id, role and email. */
  lemma ValidateSignedAccessToken(config: Config, id: string, role: string, email: string, now: int)
    requires Present(config.accessSecret)
    ensures SignAccessToken(config, id, role, email, now).Ok?
    ensures Validate(SignAccessToken(config, id, role, email, now).value.payload) == Principal(id, role, email)
  {
  }

  /** Two payloads validate to the same user only when they are the same payload. */
  lemma ValidateInjective(p: Payload, q: Payload)
    ensures Validate(p) == Validate(q) <==> p == q
  {
  }

  /**
   * The strategy can be constructed exactly when the service can sign access
   * tokens, and it then verifies with the key the service signs with.
   */
  lemma StrategyAgreesWithSigner(config: Config, id: string, role: string, email: string, now: int)
    ensures NewStrategy(config.accessSecret).Ok? <==> SignAccessToken(config, id, role, email, now).Ok?
    ensures NewStrategy(config.accessSecret).Ok? ==>
              NewStrategy(config.accessSecret).value.secretOrKey == SignAccessToken(config, id, role, email, now).value.secret
  {
  }
}
