/** Session identity and password credentials. */
module Auth {
  import opened Wrappers

  /** The two keys the application keeps in the signed session cookie:
      'user_id' and 'username'. An absent key is None. */
  datatype Session = Session(userId: Option<int>, username: Option<string>)

  /** A session with neither key. */
  const Anonymous: Session := Session(None, None)

  /** A salted password hash. The hashing library is foreign code; the model
      keeps the salt (random, so supplied by the caller) and, in `secret`,
      stands for the digest by what it was computed from, which makes the
      hash collision-free by construction. */
  datatype PasswordHash = PasswordHash(salt: string, secret: string)

  function GeneratePasswordHash(password: string, salt: string): PasswordHash
  {
    PasswordHash(salt, password)
  }

  predicate CheckPasswordHash(h: PasswordHash, password: string)
  {
    h.secret == password
  }

  /** The collision-freedom the model assumes of the hashing library: a hash
      accepts exactly the password it was generated from. This holds by the
      definitions above; it records the assumption, not a fact about the
      library. */
  lemma CheckAcceptsOnlyTheHashedPassword(password: string, salt: string, attempt: string)
    ensures CheckPasswordHash(GeneratePasswordHash(password, salt), attempt) <==> attempt == password
  {
  }

  /** The logout route: pops both keys whether or not they were set. */
  function Logout(s: Session): (r: Session)
    ensures r.userId.None? && r.username.None?
  {
    Session(None, None)
  }

  /** Logging out twice is logging out once. */
  lemma LogoutIdempotent(s: Session)
    ensures Logout(Logout(s)) == Logout(s)
  {
  }
}
