/**
 * The token issuer of the auth service: `signAccessToken` and
 * `signRefreshToken`. A signed token is the value it is computed from
 * (claims, issue second, lifetime, key), so signing is deterministic, as an
 * HMAC signature over a payload without a nonce is. Of the token's text the
 * model computes the first 72 characters, the part bcrypt reads when the
 * service hashes or compares a refresh token. Reading the process
 * environment becomes a `Config`.
 */
module Tokens {
  import opened Wrappers
  import opened Hashing
  import opened Base64Url

  /** The environment variables the signer reads; None is an unset variable. */
  datatype Config = Config(
    accessSecret: Option<string>,   // JWT_ACCESS_SECRET
    refreshSecret: Option<string>,  // JWT_REFRESH_SECRET
    accessExpires: Option<string>,  // JWT_ACCESS_EXPIRES
    refreshExpires: Option<string>  // JWT_REFRESH_EXPIRES
  )

  const DefaultAccessExpires := "15m"
  const DefaultRefreshExpires := "7d"
  const AccessSecretMissing := "JWT_ACCESS_SECRET is missing"
  const RefreshSecretMissing := "JWT_REFRESH_SECRET is missing"

  /** JavaScript truthiness of an environment string: the falsy ones are `undefined` and `""`. */
  predicate Present(v: Option<string>): (ok: bool)
    ensures ok <==> v != None && v != Some("")
  {
    v.Some? && v.value != ""
  }

  /** `v || fallback` for an environment string. */
  function OrDefault(v: Option<string>, fallback: string): (r: string)
    ensures Present(v) ==> r == v.value
    ensures !Present(v) ==> r == fallback
  {
    if Present(v) then v.value else fallback
  }

  /** The claims every token carries. */
  datatype Payload = Payload(sub: string, role: string, email: string)

  /** A signed token: its claims, the second it was issued in, its lifetime and the key that signed it. */
  datatype Token = Jwt(payload: Payload, issuedAt: int, expiresIn: string, secret: string)

  /** The payload both signers build from an account: `{ sub: id, role, email }`. */
  function ClaimsOf(id: string, role: string, email: string): (p: Payload)
    ensures p.sub == id && p.role == role && p.email == email
  {
    Payload(id, role, email)
  }

  /** The `iat` claim the library stamps: whole seconds of the clock in milliseconds. */
  function IssuedAt(nowMillis: int): (seconds: int)
    ensures seconds * 1000 <= nowMillis < seconds * 1000 + 1000
  {
    nowMillis / 1000
  }

  /** signAccessToken(user) at instant `now`: fails when the access secret is unset or empty. */
  function SignAccessToken(config: Config, id: string, role: string, email: string, now: int): (r: Result<Token, string>)
    ensures r.Ok? <==> Present(config.accessSecret)
    ensures r.Err? ==> r.error == AccessSecretMissing
    ensures r.Ok? ==> && r.value.payload == ClaimsOf(id, role, email)
                      && r.value.secret == config.accessSecret.value
                      && r.value.expiresIn == OrDefault(config.accessExpires, DefaultAccessExpires)
                      && r.value.issuedAt == IssuedAt(now)
  {
    if !Present(config.accessSecret) then Err(AccessSecretMissing)
    else Ok(Jwt(ClaimsOf(id, role, email), IssuedAt(now),
                OrDefault(config.accessExpires, DefaultAccessExpires), config.accessSecret.value))
  }

  /** signRefreshToken(user) at instant `now`: fails when the refresh secret is unset or empty. */
  function SignRefreshToken(config: Config, id: string, role: string, email: string, now: int): (r: Result<Token, string>)
    ensures r.Ok? <==> Present(config.refreshSecret)
    ensures r.Err? ==> r.error == RefreshSecretMissing
    ensures r.Ok? ==> && r.value.payload == ClaimsOf(id, role, email)
                      && r.value.secret == config.refreshSecret.value
                      && r.value.expiresIn == OrDefault(config.refreshExpires, DefaultRefreshExpires)
                      && r.value.issuedAt == IssuedAt(now)
  {
    if !Present(config.refreshSecret) then Err(RefreshSecretMissing)
    else Ok(Jwt(ClaimsOf(id, role, email), IssuedAt(now),
                OrDefault(config.refreshExpires, DefaultRefreshExpires), config.refreshSecret.value))
  }

  /**
   * Two refresh tokens for the same account and configuration are the same
   * token exactly when they were signed in the same second.
   */
  lemma RefreshTokensEqualIffSameSecond(config: Config, id: string, role: string, email: string, t1: int, t2: int)
    requires Present(config.refreshSecret)
    ensures SignRefreshToken(config, id, role, email, t1) == SignRefreshToken(config, id, role, email, t2)
            <==> t1 / 1000 == t2 / 1000
  {
  }

  /** With distinct secrets an access token is never equal to a refresh token. */
  lemma AccessTokenIsNotARefreshToken(config: Config, id: string, role: string, email: string, t1: int,
                                      id': string, role': string, email': string, t2: int)
    requires Present(config.accessSecret) && Present(config.refreshSecret)
    requires config.accessSecret != config.refreshSecret
    ensures SignAccessToken(config, id, role, email, t1).value != SignRefreshToken(config, id', role', email', t2).value
  {
  }

  /** The JOSE header of every token the service signs (HS256 is the library's default). */
  const JoseHeader := "{\"alg\":\"HS256\",\"typ\":\"JWT\"}"

  /**
   * The start of the payload JSON: the claims in the order the service lists
   * them. The library appends `iat` and `exp` after them. Claim values are
   * taken to need no JSON escaping.
   */
  function ClaimsJsonStart(p: Payload): (j: string)
    ensures |j| >= 30
  {
    "{\"sub\":\"" + p.sub + "\",\"role\":\"" + p.role + "\",\"email\":\"" + p.email + "\""
  }

  /**
   * A candidate for what follows the claims in the payload JSON (in a real
   * token `,"iat":…,"exp":…}`); any byte sequence is one, so the lemmas
   * below hold whatever the tail is.
   */
  predicate AnyPayloadTail(rest: seq<int>)
  {
    IsBytes(rest)
  }

  /** The header segment of every token: `JoseHeader` in base64url. */
  const HeaderSegment := "eyJhbGciOiJIUzI1NiIsInR5cCI6IkpXVCJ9"

  lemma HeaderSegmentEncodesHeader()
    ensures Encode(AsciiBytes(JoseHeader)) == HeaderSegment
  {
    HeaderSplit();
    HeaderGroup1();
    HeaderGroup2();
    HeaderGroup3();
    EncodeStringOfThree(JoseHeader, "{\"alg\":\"H", "S256\",\"ty", "p\":\"JWT\"}",
                        "eyJhbGciOiJI", "UzI1NiIsInR5", "cCI6IkpXVCJ9");
  }

  lemma HeaderSplit()
    ensures JoseHeader == "{\"alg\":\"H" + "S256\",\"ty" + "p\":\"JWT\"}"
    ensures HeaderSegment == "eyJhbGciOiJI" + "UzI1NiIsInR5" + "cCI6IkpXVCJ9"
  {
  }

  lemma HeaderGroup1()
    ensures Encode(AsciiBytes("{\"alg\":\"H")) == "eyJhbGciOiJI"
  {
    HeaderBytes1();
    HeaderEncoding1();
  }

  lemma HeaderBytes1()
    ensures AsciiBytes("{\"alg\":\"H") == [123, 34, 97, 108, 103, 34, 58, 34, 72]
  {
  }

  lemma HeaderEncoding1()
    ensures Encode([123, 34, 97, 108, 103, 34, 58, 34, 72]) == "eyJhbGciOiJI"
  {
  }

  lemma HeaderGroup2()
    ensures Encode(AsciiBytes("S256\",\"ty")) == "UzI1NiIsInR5"
  {
    HeaderBytes2();
    HeaderEncoding2();
  }

  lemma HeaderBytes2()
    ensures AsciiBytes("S256\",\"ty") == [83, 50, 53, 54, 34, 44, 34, 116, 121]
  {
  }

  lemma HeaderEncoding2()
    ensures Encode([83, 50, 53, 54, 34, 44, 34, 116, 121]) == "UzI1NiIsInR5"
  {
  }

  lemma HeaderGroup3()
    ensures Encode(AsciiBytes("p\":\"JWT\"}")) == "cCI6IkpXVCJ9"
  {
    HeaderBytes3();
    HeaderEncoding3();
  }

  lemma HeaderBytes3()
    ensures AsciiBytes("p\":\"JWT\"}") == [112, 34, 58, 34, 74, 87, 84, 34, 125]
  {
  }

  lemma HeaderEncoding3()
    ensures Encode([112, 34, 58, 34, 74, 87, 84, 34, 125]) == "cCI6IkpXVCJ9"
  {
  }

  /**
   * The compact form `header.payload.signature` up to whatever follows the
   * claims: `rest` is the remainder of the payload JSON and `signature` the
   * encoded HMAC, neither of which the model computes.
   */
  function CompactForm(t: Token, rest: seq<int>, signature: string): (f: string)
    requires AnyPayloadTail(rest)
    ensures |f| > BcryptInputLimit + |signature|
    ensures f[..|HeaderSegment| + 1] == HeaderSegment + "."
    ensures f[|f| - |signature|..] == signature
  {
    HeaderSegment + "." + Encode(AsciiBytes(ClaimsJsonStart(t.payload)) + rest) + "." + signature
  }

  /**
   * The first 72 characters of a token's compact form: the header segment,
   * the dot and 35 characters of the payload segment, which encode the first
   * 26 bytes of the payload JSON and two bits of the 27th.
   */
  function CompactPrefix(t: Token): (s: string)
    ensures |s| == BcryptInputLimit
  {
    HeaderSegment + "." + Encode(AsciiBytes(ClaimsJsonStart(t.payload)))[..35]
  }

  /** Whatever follows the claims, bcrypt reads exactly `CompactPrefix` of a token. */
  lemma {:induction false} CompactPrefixIsWhatBcryptReads(t: Token, rest: seq<int>, signature: string)
    requires AnyPayloadTail(rest)
    ensures BcryptInput(CompactForm(t, rest, signature)) == CompactPrefix(t)
  {
    var claims := AsciiBytes(ClaimsJsonStart(t.payload));
    assert (claims + rest)[..27] == claims[..27];
    EncodePrefix(claims, claims + rest, 9);
    var h := HeaderSegment + ".";
    var e := Encode(claims + rest);
    assert CompactForm(t, rest, signature) == h + (e + "." + signature);
    assert (h + (e + "." + signature))[..72] == h + e[..35];
    assert e[..35] == e[..36][..35];
    assert Encode(claims)[..35] == Encode(claims)[..36][..35];
  }

  /**
   * What the first 72 characters of a token reveal: two tokens whose ids
   * agree on their first 19 characters share them, whatever their other
   * claims, issue time, lifetime and signing key.
   */
  lemma {:induction false} SharedIdPrefixSharesCompactPrefix(t1: Token, t2: Token)
    requires |t1.payload.sub| >= 19 && |t2.payload.sub| >= 19
    requires t1.payload.sub[..19] == t2.payload.sub[..19]
    ensures CompactPrefix(t1) == CompactPrefix(t2)
  {
    var j1 := ClaimsJsonStart(t1.payload);
    var j2 := ClaimsJsonStart(t2.payload);
    assert j1[..27] == "{\"sub\":\"" + t1.payload.sub[..19];
    assert j2[..27] == "{\"sub\":\"" + t2.payload.sub[..19];
    var c1 := AsciiBytes(j1);
    var c2 := AsciiBytes(j2);
    assert c1[..27] == c2[..27] by {
      forall i | 0 <= i < 27 ensures c1[i] == c2[i] {
        assert j1[i] == j1[..27][i] == j2[..27][i] == j2[i];
      }
    }
    EncodePrefix(c1, c2, 9);
    assert Encode(c1)[..35] == Encode(c1)[..36][..35];
    assert Encode(c2)[..35] == Encode(c2)[..36][..35];
  }

  /** How the service stores a refresh token: bcrypt of the token, or (corrected) bcrypt of its SHA-256. */
  datatype SessionHashing = BcryptOfToken | BcryptOfSha256

  /**
   * A stored refresh-token digest. `Sha256Digest` stands for bcrypt over the
   * 64 hexadecimal characters of the token's SHA-256, which bcrypt reads in
   * full; SHA-256 is taken to be collision-free, so the digest identifies the
   * whole token.
   */
  datatype SessionDigest = TokenDigest(digest: Digest) | Sha256Digest(token: Token)

  /**
   * compare(token, digest): against the digest of a token, only the token's
   * first 72 characters count; against the digest of a SHA-256, the whole token.
   */
  predicate MatchesToken(t: Token, d: SessionDigest): (ok: bool)
    ensures d.TokenDigest? ==> (ok <==> CompactPrefix(t) == d.digest.input)
    ensures d.Sha256Digest? ==> (ok <==> t == d.token)
  {
    match d
    case TokenDigest(h) => Matches(CompactPrefix(t), h)
    case Sha256Digest(u) => t == u
  }

  /** hash(token), under either way of storing it. */
  function HashToken(hashing: SessionHashing, t: Token): (d: SessionDigest)
    ensures MatchesToken(t, d)
  {
    match hashing
    case BcryptOfToken => TokenDigest(Hash(CompactPrefix(t)))
    case BcryptOfSha256 => Sha256Digest(t)
  }

  /** Hashing the token itself: a token matches exactly when it agrees on the first 72 characters. */
  lemma BcryptOfTokenMatchesPrefix(t: Token, u: Token)
    ensures MatchesToken(t, HashToken(BcryptOfToken, u)) <==> CompactPrefix(t) == CompactPrefix(u)
  {
  }

  /** Hashing the SHA-256 first: a token matches exactly its own digest. */
  lemma BcryptOfSha256MatchesOnlyItself(t: Token, u: Token)
    ensures MatchesToken(t, HashToken(BcryptOfSha256, u)) <==> t == u
  {
  }
}
