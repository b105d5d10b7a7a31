/**
 * The user table the auth service reads and writes: account records keyed by
 * id, with an index from email (unique) to id.
 */
module Accounts {
  import opened Wrappers
  import opened Hashing
  import opened Tokens

  type Id = string
  type Email = string
  type Role = string

  /** The role a new account receives from the database default. */
  const DefaultRole: Role := "USER"

  /** One user record. Each OTP is a code and an expiry instant (milliseconds). */
  datatype Account = Account(
    id: Id,
    email: Email,
    userName: Option<string>,
    phone: string,
    password: Digest,
    role: Role,
    emailVerified: bool,
    emailOtp: Option<string>,
    emailOtpExpiresAt: Option<int>,
    resetOtp: Option<string>,
    resetOtpExpiresAt: Option<int>,
    refreshTokenHash: Option<SessionDigest>
  )

  /** Each OTP code is stored together with its expiry, never one without the other. */
  ghost predicate PairsConsistent(a: Account)
  {
    && a.emailOtp.Some? == a.emailOtpExpiresAt.Some?
    && a.resetOtp.Some? == a.resetOtpExpiresAt.Some?
  }

  /** The table, and the unique index on email. */
  datatype Store = Store(users: map<Id, Account>, byEmail: map<Email, Id>)

  /** Records are filed under their own id, the email index is exact, and OTP pairs are whole. */
  ghost predicate Valid(s: Store)
  {
    && (forall id :: id in s.users ==> s.users[id].id == id && PairsConsistent(s.users[id]))
    && (forall id :: id in s.users ==> s.users[id].email in s.byEmail && s.byEmail[s.users[id].email] == id)
    && (forall e :: e in s.byEmail ==> s.byEmail[e] in s.users && s.users[s.byEmail[e]].email == e)
  }

  /** No two records share an email. */
  lemma EmailsAreUnique(s: Store, i: Id, j: Id)
    requires Valid(s) && i in s.users && j in s.users
    requires s.users[i].email == s.users[j].email
    ensures i == j
  {
  }

  /** findUnique({ where: { email } }). */
  function FindByEmail(s: Store, email: Email): (r: Option<Account>)
    requires Valid(s)
    ensures r.Some? <==> email in s.byEmail
    ensures r.Some? ==> r.value.email == email && r.value.id in s.users && s.users[r.value.id] == r.value
  {
    if email in s.byEmail then Some(s.users[s.byEmail[email]]) else None
  }

  /** The new table holds `a` in place of the record with its id, and nothing else differs. */
  ghost predicate Updated(s: Store, s': Store, a: Account)
  {
    s'.byEmail == s.byEmail && s'.users == s.users[a.id := a]
  }

  /** update({ where: { id }, data }): write back a changed record whose id and email are kept. */
  function Put(s: Store, a: Account): (r: Store)
    requires Valid(s) && a.id in s.users && a.email == s.users[a.id].email && PairsConsistent(a)
    ensures Valid(r) && Updated(s, r, a)
    ensures r.users.Keys == s.users.Keys
    ensures forall id :: id in s.users && id != a.id ==> r.users[id] == s.users[id]
  {
    Store(s.users[a.id := a], s.byEmail)
  }

  /**
   * What every operation keeps: no record or index entry disappears, the
   * identity fields of a record (email, name, phone, role) never change, and
   * a verified email stays verified.
   */
  ghost predicate Evolves(s: Store, s': Store)
  {
    && s.users.Keys <= s'.users.Keys
    && (forall e :: e in s.byEmail ==> e in s'.byEmail && s'.byEmail[e] == s.byEmail[e])
    && (forall id :: id in s.users ==>
          && s'.users[id].email == s.users[id].email
          && s'.users[id].userName == s.users[id].userName
          && s'.users[id].phone == s.users[id].phone
          && s'.users[id].role == s.users[id].role
          && (s.users[id].emailVerified ==> s'.users[id].emailVerified))
  }
}
