/**
 * Properties of the refresh-token allowlist, stated over the functions of
 * `AuthModel`: what login reveals, what each successful issue adds, how a
 * refresh consumes, purges and rotates rows, and what validation returns.
 */
module AuthProperties {
  import opened Wrappers
  import opened Tables
  import opened AuthModel

  /** Two users of a valid store with the same email are the same user. */
  lemma EmailDeterminesUser(s: Store, u: User, v: User)
    requires StoreValid(s)
    requires u in s.users && v in s.users && u.email == v.email
    ensures u == v
  {
    var i :| 0 <= i < |s.users| && s.users[i] == u;
    var j :| 0 <= j < |s.users| && s.users[j] == v;
  }

  /**
   * Login fails exactly when no user has the email or the password does not
   * match that user's hash, and both failures are the same error with the
   * store untouched.
   */
  lemma LoginFailsAlike(env: Env, s: Store, dto: Credentials, now: int)
    requires ConfigValid(env.config) && StoreValid(s)
    ensures Login(env, s, dto, now).0.Err? <==>
      forall u :: u in s.users && u.email == dto.email ==> !env.bcrypt.compare(dto.password, u.passwordHash)
    ensures Login(env, s, dto, now).0.Err? ==> Login(env, s, dto, now) == (Err(WrongCredentials), s)
  {
    if FindByEmail(s.users, dto.email).Some? {
      var found := FindByEmail(s.users, dto.email).value;
      forall u | u in s.users && u.email == dto.email
        ensures u == found
      {
        EmailDeterminesUser(s, u, found);
      }
    }
  }

  /** An unknown email and a known email with a wrong password give the caller the same answer. */
  lemma UnknownEmailLikeWrongPassword(env: Env, s: Store, unknown: Credentials, wrong: Credentials, now: int)
    requires ConfigValid(env.config) && StoreValid(s)
    requires forall u :: u in s.users ==> u.email != unknown.email
    requires exists u :: u in s.users && u.email == wrong.email
    requires forall u :: u in s.users && u.email == wrong.email ==> !env.bcrypt.compare(wrong.password, u.passwordHash)
    ensures Login(env, s, unknown, now) == Login(env, s, wrong, now) == (Err(WrongCredentials), s)
  {
    LoginFailsAlike(env, s, unknown, now);
    LoginFailsAlike(env, s, wrong, now);
  }

  /** Register keeps ids and emails unique. */
  lemma RegisterPreservesValid(env: Env, s: Store, dto: Credentials, salt: Salt, now: int)
    requires ConfigValid(env.config) && StoreValid(s)
    ensures StoreValid(Register(env, s, dto, salt, now).1)
  {
  }

  /** Login and refresh leave the users table alone, so they keep the store valid. */
  lemma LoginRefreshPreserveValid(env: Env, s: Store, dto: Credentials, token: string, now: int)
    requires ConfigValid(env.config) && StoreValid(s)
    ensures StoreValid(Login(env, s, dto, now).1)
    ensures StoreValid(Refresh(env, s, token, now).1)
  {
  }

  /** Without a row for `(token, sub)` a refresh fails and changes nothing. */
  lemma RefreshUnmatchedChangesNothing(env: Env, s: Store, token: string, now: int)
    requires ConfigValid(env.config)
    requires Verify(env.jwt, token, now).Some? ==>
      forall row :: row in s.rows ==> !(row.token == token && row.userId == Verify(env.jwt, token, now).value.sub)
    ensures Refresh(env, s, token, now) == (Err(InvalidRefresh), s)
  {
    if Verify(env.jwt, token, now).Some? {
      var sub := Verify(env.jwt, token, now).value.sub;
      forall j | 0 <= j < |s.rows| ensures !Matches(token, sub)(s.rows[j]) {
        assert s.rows[j] in s.rows;
      }
    }
  }

  /** A row presented strictly after its expiry is deleted, and nothing is issued. */
  lemma RefreshPurgesExpired(env: Env, s: Store, token: string, now: int, i: nat)
    requires ConfigValid(env.config)
    requires Verify(env.jwt, token, now).Some?
    requires IndexWhere(s.rows, Matches(token, Verify(env.jwt, token, now).value.sub)) == Some(i)
    requires now > s.rows[i].expiresAt
    ensures Refresh(env, s, token, now) == (Err(InvalidRefresh), s.(rows := RemoveAt(s.rows, i)))
  {
  }

  /**
   * A live row is consumed before anything else happens: if its user is gone
   * the row stays deleted and nothing is added; otherwise exactly one new row,
   * for the new refresh token, takes its place. A row presented exactly at
   * its expiry instant is still live.
   */
  lemma RefreshRotates(env: Env, s: Store, token: string, now: int, i: nat)
    requires ConfigValid(env.config)
    requires Verify(env.jwt, token, now).Some?
    requires IndexWhere(s.rows, Matches(token, Verify(env.jwt, token, now).value.sub)) == Some(i)
    requires now <= s.rows[i].expiresAt
    ensures var sub := Verify(env.jwt, token, now).value.sub;
      match FindById(s.users, sub)
      case None => Refresh(env, s, token, now) == (Err(InvalidRefresh), s.(rows := RemoveAt(s.rows, i)))
      case Some(user) =>
        var out := Refresh(env, s, token, now);
        && out.0 == Ok(GenerateTokens(env, sub, user.email, now))
        && out.1.rows == RemoveAt(s.rows, i) + [IssuedRow(env, sub, out.0.value.refreshToken, now)]
  {
  }

  /**
   * A successful refresh takes one row for `(token, sub)` out of the store,
   * and puts one back only when the reissued refresh token is the same string.
   */
  lemma RefreshConsumesOneMatch(env: Env, s: Store, token: string, now: int)
    requires ConfigValid(env.config)
    requires Refresh(env, s, token, now).0.Ok?
    ensures Verify(env.jwt, token, now).Some?
    ensures var m := Matches(token, Verify(env.jwt, token, now).value.sub);
      var out := Refresh(env, s, token, now);
      Count(out.1.rows, m) == Count(s.rows, m) - 1 + (if out.0.value.refreshToken == token then 1 else 0)
  {
    var sub := Verify(env.jwt, token, now).value.sub;
    var m := Matches(token, sub);
    var i := IndexWhere(s.rows, m).value;
    var user := FindById(s.users, sub).value;
    var out := Refresh(env, s, token, now);
    var row := IssuedRow(env, user.id, out.0.value.refreshToken, now);
    CountRemoveAt(s.rows, m, i);
    CountAppend(RemoveAt(s.rows, i), row, m);
  }

  /**
   * Refresh tokens are single-use: once a token that was on one row has been
   * exchanged for a different one, presenting it again fails, whenever.
   */
  lemma RefreshIsSingleUse(env: Env, s: Store, token: string, now: int, later: int)
    requires ConfigValid(env.config)
    requires Refresh(env, s, token, now).0.Ok?
    requires Refresh(env, s, token, now).0.value.refreshToken != token
    requires forall c :: env.jwt.decode(token) == Some(c) ==> Count(s.rows, Matches(token, c.sub)) == 1
    ensures Refresh(env, Refresh(env, s, token, now).1, token, later) == (Err(InvalidRefresh), Refresh(env, s, token, now).1)
  {
    var c := Verify(env.jwt, token, now).value;
    var s' := Refresh(env, s, token, now).1;
    RefreshConsumesOneMatch(env, s, token, now);
    CountNone(s'.rows, Matches(token, c.sub));
    forall row | row in s'.rows
      ensures !(row.token == token && row.userId == c.sub)
    {
      var j :| 0 <= j < |s'.rows| && s'.rows[j] == row;
      assert !Matches(token, c.sub)(s'.rows[j]);
    }
    RefreshUnmatchedChangesNothing(env, s', token, later);
  }

  /** Validation fails exactly when the token does not verify or its user no longer exists. */
  lemma ValidateRejects(env: Env, s: Store, token: string, now: int)
    ensures ValidateToken(env, s, token, now).Err? <==>
      (Verify(env.jwt, token, now).None? ||
       forall u :: u in s.users ==> u.id != Verify(env.jwt, token, now).value.sub)
  {
    if Verify(env.jwt, token, now).Some? {
      var sub := Verify(env.jwt, token, now).value.sub;
      if FindById(s.users, sub).None? {
        forall u | u in s.users ensures u.id != sub {
          var i :| 0 <= i < |s.users| && s.users[i] == u;
        }
      }
    }
  }

  /** The access token returned by a registration validates at once, as the new user. */
  lemma RegisterThenValidate(env: Env, s: Store, dto: Credentials, salt: Salt, now: int)
    requires ConfigValid(env.config) && Sound(env) && StoreValid(s)
    requires Register(env, s, dto, salt, now).0.Ok?
    ensures var out := Register(env, s, dto, salt, now);
      ValidateToken(env, out.1, out.0.value.accessToken, now) == Ok(Validation(true, s.nextUserId, dto.email))
  {
    var out := Register(env, s, dto, salt, now);
    var user := User(s.nextUserId, dto.email, env.bcrypt.hash(dto.password, salt));
    var claims := Claims(user.id, user.email);
    assert out.0.value.accessToken == env.jwt.sign(claims, env.config.accessExpires, now);
    assert Verify(env.jwt, out.0.value.accessToken, now) == Some(claims);
    IndexWhereAppendFirst(s.users, user, (u: User) => u.id == user.id);
  }

  /** The access token returned by a login validates at once, as the user who logged in. */
  lemma LoginThenValidate(env: Env, s: Store, dto: Credentials, now: int)
    requires ConfigValid(env.config) && Sound(env) && StoreValid(s)
    requires Login(env, s, dto, now).0.Ok?
    ensures var out := Login(env, s, dto, now);
      var user := FindByEmail(s.users, dto.email).value;
      ValidateToken(env, out.1, out.0.value.accessToken, now) == Ok(Validation(true, user.id, user.email))
  {
    var out := Login(env, s, dto, now);
    var user := FindByEmail(s.users, dto.email).value;
    var claims := Claims(user.id, user.email);
    assert Verify(env.jwt, out.0.value.accessToken, now) == Some(claims);
    var found := FindById(s.users, user.id).value;
    var i :| 0 <= i < |s.users| && s.users[i] == user;
    var j :| 0 <= j < |s.users| && s.users[j] == found;
    assert i == j;
  }

  /** In a valid store, looking a stored user up by id finds that user. */
  lemma FindByIdStored(s: Store, user: User)
    requires StoreValid(s) && user in s.users
    ensures FindById(s.users, user.id) == Some(user)
  {
    var found := FindById(s.users, user.id).value;
    var i :| 0 <= i < |s.users| && s.users[i] == user;
    var j :| 0 <= j < |s.users| && s.users[j] == found;
    assert i == j;
  }

  /**
   * A refresh token can be redeemed the moment it is issued: presented at the
   * same instant, its row is consumed and, the claims and the instant being
   * the same, the same pair is issued and saved again in its place.
   */
  lemma IssueThenRefresh(env: Env, s: Store, user: User, now: int)
    requires ConfigValid(env.config) && Sound(env) && RefreshTtl(env.config) >= 0
    requires FindById(s.users, user.id) == Some(user)
    requires forall row :: row in s.rows ==>
      !(row.token == GenerateTokens(env, user.id, user.email, now).refreshToken && row.userId == user.id)
    ensures var out := Issue(env, s, user, now);
      Refresh(env, out.1, out.0.value.refreshToken, now) == out
  {
    var out := Issue(env, s, user, now);
    var token := out.0.value.refreshToken;
    var row := IssuedRow(env, user.id, token, now);
    assert Verify(env.jwt, token, now) == Some(Claims(user.id, user.email));
    forall j | 0 <= j < |s.rows| ensures !Matches(token, user.id)(s.rows[j]) {
      assert s.rows[j] in s.rows;
    }
    IndexWhereAppendFirst(s.rows, row, Matches(token, user.id));
    assert RemoveAt(s.rows + [row], |s.rows|) == s.rows;
  }

  /**
   * The refresh token returned by a login is accepted at once: it rotates the
   * row the login saved, leaving the store as the login left it.
   */
  lemma LoginThenRefresh(env: Env, s: Store, dto: Credentials, now: int)
    requires ConfigValid(env.config) && Sound(env) && StoreValid(s) && RefreshTtl(env.config) >= 0
    requires Login(env, s, dto, now).0.Ok?
    requires forall row :: row in s.rows ==>
      !(row.token == Login(env, s, dto, now).0.value.refreshToken && row.userId == FindByEmail(s.users, dto.email).value.id)
    ensures var out := Login(env, s, dto, now);
      Refresh(env, out.1, out.0.value.refreshToken, now) == out
  {
    var user := FindByEmail(s.users, dto.email).value;
    FindByIdStored(s, user);
    assert Login(env, s, dto, now) == Issue(env, s, user, now);
    IssueThenRefresh(env, s, user, now);
  }

  /**
   * The refresh token returned by a registration is accepted at once: it
   * rotates the row the registration saved, leaving the store as it was.
   */
  lemma RegisterThenRefresh(env: Env, s: Store, dto: Credentials, salt: Salt, now: int)
    requires ConfigValid(env.config) && Sound(env) && StoreValid(s) && RefreshTtl(env.config) >= 0
    requires Register(env, s, dto, salt, now).0.Ok?
    requires forall row :: row in s.rows ==>
      !(row.token == Register(env, s, dto, salt, now).0.value.refreshToken && row.userId == s.nextUserId)
    ensures var out := Register(env, s, dto, salt, now);
      Refresh(env, out.1, out.0.value.refreshToken, now) == out
  {
    var user := User(s.nextUserId, dto.email, env.bcrypt.hash(dto.password, salt));
    var grown := s.(users := s.users + [user], nextUserId := s.nextUserId + 1);
    forall j | 0 <= j < |s.users| ensures s.users[j].id != user.id {
    }
    IndexWhereAppendFirst(s.users, user, (u: User) => u.id == user.id);
    assert Register(env, s, dto, salt, now) == Issue(env, grown, user, now);
    IssueThenRefresh(env, grown, user, now);
  }
}
