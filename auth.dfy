/**
 * The login / refresh-token exchange of `AuthController`: a table of users
 * whose two refresh-token fields are rewritten in place on every successful
 * exchange. Time is in ticks; the access-token generator is a function
 * parameter and the newly generated refresh token is supplied by the caller.
 */
module Auth {
  import opened Wrappers
  import opened Domain

  const TicksPerDay: int := 864_000_000_000
  /** `DateTime.UtcNow.AddDays(7)`: a refresh token lives seven days. */
  const RefreshTokenLifetime: int := 7 * TicksPerDay

  const InvalidCredentialsMessage := "Invalid username or password."
  const InvalidRefreshTokenMessage := "Invalid or expired refresh token."

  /** A user row; `refreshToken` is null until the first login. */
  datatype User = User(
    id: int,
    username: string,
    passwordHash: string,
    role: string,
    refreshToken: Option<string>,
    refreshTokenExpiryTime: Ticks)

  datatype LoginRequest = LoginRequest(username: string, password: string)
  datatype RefreshRequest = RefreshRequest(refreshToken: string)
  datatype AuthResponse = AuthResponse(accessToken: string, refreshToken: string)

  /** The controller's two outcomes: 200 with a token pair, or 401 with a fixed text. */
  datatype AuthResult = Ok(response: AuthResponse) | Unauthorized(message: string)

  /** `IJwtTokenGenerator.GenerateToken(id, username, role)`, its signing left abstract. */
  type AccessTokenGenerator = (int, string, string) -> string

  /** The two `FirstOrDefaultAsync` filters. */
  datatype Lookup = ByCredentials(username: string, password: string) | ByRefreshToken(token: string)

  predicate Selects(q: Lookup, u: User) {
    match q
    case ByCredentials(name, password) => u.username == name && u.passwordHash == password
    case ByRefreshToken(t) => u.refreshToken == Some(t)
  }

  /** `FirstOrDefault` from position `k` on: the first selected user at or after `k`, if any. */
  function FirstMatchFrom(users: seq<User>, q: Lookup, k: nat): (r: Option<nat>)
    requires k <= |users|
    ensures r.Some? ==>
      k <= r.value < |users| && Selects(q, users[r.value])
      && forall j :: k <= j < r.value ==> !Selects(q, users[j])
    ensures r.None? ==> forall j :: k <= j < |users| ==> !Selects(q, users[j])
    decreases |users| - k
  {
    if k == |users| then None
    else if Selects(q, users[k]) then Some(k)
    else FirstMatchFrom(users, q, k + 1)
  }

  /** The first user in table order that `q` selects, if any. */
  function FirstMatch(users: seq<User>, q: Lookup): Option<nat>
  {
    FirstMatchFrom(users, q, 0)
  }

  /** The same user with a new refresh token expiring seven days after `now`. */
  function Rotate(u: User, token: string, now: Ticks): User {
    u.(refreshToken := Some(token), refreshTokenExpiryTime := now + RefreshTokenLifetime)
  }

  /** `u` and `v` agree on every field outside the refresh session. */
  predicate SameAccount(u: User, v: User) {
    u.id == v.id && u.username == v.username && u.passwordHash == v.passwordHash && u.role == v.role
  }

  /** The token pair issued to `u`: an access token generated from its id, name and role, and `token`. */
  function Issue(u: User, generate: AccessTokenGenerator, token: string): AuthResponse {
    AuthResponse(generate(u.id, u.username, u.role), token)
  }

  /** `Login`: the new table and the response. */
  function LoginStep(users: seq<User>, request: LoginRequest, now: Ticks,
                     generate: AccessTokenGenerator, newRefreshToken: string): (r: (seq<User>, AuthResult))
    ensures |r.0| == |users| && forall j :: 0 <= j < |users| ==> SameAccount(r.0[j], users[j])
    ensures r.1.Ok? <==> FirstMatch(users, ByCredentials(request.username, request.password)).Some?
    ensures r.1.Unauthorized? ==> r == (users, Unauthorized(InvalidCredentialsMessage))
    ensures r.1.Ok? ==>
      var i := FirstMatch(users, ByCredentials(request.username, request.password)).value;
      && r.1.response == AuthResponse(generate(users[i].id, users[i].username, users[i].role), newRefreshToken)
      && r.0[i].refreshToken == Some(r.1.response.refreshToken)
      && r.0[i].refreshTokenExpiryTime == now + RefreshTokenLifetime
      && forall j :: 0 <= j < |users| && j != i ==> r.0[j] == users[j]
  {
    match FirstMatch(users, ByCredentials(request.username, request.password))
    case None => (users, Unauthorized(InvalidCredentialsMessage))
    case Some(i) =>
      (users[i := Rotate(users[i], newRefreshToken, now)], Ok(Issue(users[i], generate, newRefreshToken)))
  }

  /** `Refresh`: the new table and the response. An expiry equal to `now` already counts as expired. */
  function RefreshStep(users: seq<User>, request: RefreshRequest, now: Ticks,
                       generate: AccessTokenGenerator, newRefreshToken: string): (r: (seq<User>, AuthResult))
    ensures |r.0| == |users| && forall j :: 0 <= j < |users| ==> SameAccount(r.0[j], users[j])
    ensures r.1.Ok? <==>
      var found := FirstMatch(users, ByRefreshToken(request.refreshToken));
      found.Some? && now < users[found.value].refreshTokenExpiryTime
    ensures r.1.Unauthorized? ==> r == (users, Unauthorized(InvalidRefreshTokenMessage))
    ensures r.1.Ok? ==>
      var i := FirstMatch(users, ByRefreshToken(request.refreshToken)).value;
      && r.1.response == AuthResponse(generate(users[i].id, users[i].username, users[i].role), newRefreshToken)
      && r.0[i].refreshToken == Some(r.1.response.refreshToken)
      && r.0[i].refreshTokenExpiryTime == now + RefreshTokenLifetime
      && forall j :: 0 <= j < |users| && j != i ==> r.0[j] == users[j]
  {
    match FirstMatch(users, ByRefreshToken(request.refreshToken))
    case None => (users, Unauthorized(InvalidRefreshTokenMessage))
    case Some(i) =>
      if users[i].refreshTokenExpiryTime <= now then (users, Unauthorized(InvalidRefreshTokenMessage))
      else (users[i := Rotate(users[i], newRefreshToken, now)], Ok(Issue(users[i], generate, newRefreshToken)))
  }

  class UserTable {
    /** The users, in the order the store returns them. */
    var users: seq<User>

    constructor (seed: seq<User>)
      ensures users == seed
    {
      users := seed;
    }

    /** `FirstOrDefaultAsync(filter)`: scans the table in order. */
    method FindFirst(q: Lookup) returns (found: Option<nat>)
      ensures found == FirstMatch(users, q)
    {
      var k := 0;
      while k < |users|
        invariant 0 <= k <= |users|
        invariant forall j :: 0 <= j < k ==> !Selects(q, users[j])
      {
        if Selects(q, users[k]) {
          return Some(k);
        }
        k := k + 1;
      }
      found := None;
    }

    /** `AuthController.Login`. */
    method Login(request: LoginRequest, now: Ticks, generate: AccessTokenGenerator, newRefreshToken: string)
      returns (result: AuthResult)
      modifies this
      ensures (users, result) == LoginStep(old(users), request, now, generate, newRefreshToken)
    {
      var found := FindFirst(ByCredentials(request.username, request.password));
      if found.None? {
        return Unauthorized(InvalidCredentialsMessage);
      }
      var user := users[found.value];
      var accessToken := generate(user.id, user.username, user.role);
      users := users[found.value := Rotate(user, newRefreshToken, now)];
      result := Ok(AuthResponse(accessToken, newRefreshToken));
    }

    /** `AuthController.Refresh`. */
    method Refresh(request: RefreshRequest, now: Ticks, generate: AccessTokenGenerator, newRefreshToken: string)
      returns (result: AuthResult)
      modifies this
      ensures (users, result) == RefreshStep(old(users), request, now, generate, newRefreshToken)
    {
      var found := FindFirst(ByRefreshToken(request.refreshToken));
      if found.None? || users[found.value].refreshTokenExpiryTime <= now {
        return Unauthorized(InvalidRefreshTokenMessage);
      }
      var user := users[found.value];
      var accessToken := generate(user.id, user.username, user.role);
      users := users[found.value := Rotate(user, newRefreshToken, now)];
      result := Ok(AuthResponse(accessToken, newRefreshToken));
    }
  }

  // ---------------------------------------------------------------------------
  // Properties of the exchange

  /** The first match is the unique selected position with no selected position before it. */
  lemma FirstMatchIs(users: seq<User>, q: Lookup, i: nat)
    requires i < |users| && Selects(q, users[i])
    requires forall j :: 0 <= j < i ==> !Selects(q, users[j])
    ensures FirstMatch(users, q) == Some(i)
  {
  }

  /** No user stores `t`. */
  predicate NotHeld(users: seq<User>, t: string) {
    forall j :: 0 <= j < |users| ==> users[j].refreshToken != Some(t)
  }

  /** At most one user stores `t`. */
  predicate HeldAtMostOnce(users: seq<User>, t: string) {
    forall j, k :: 0 <= j < k < |users| && users[j].refreshToken == Some(t) ==> users[k].refreshToken != Some(t)
  }

  /** No two users store the same refresh token. */
  predicate TokensUnique(users: seq<User>) {
    forall j, k :: 0 <= j < k < |users| && users[j].refreshToken.Some? ==> users[k].refreshToken != users[j].refreshToken
  }

  /** Login with credentials no user has is refused and changes nothing. */
  lemma LoginRejectsUnknownCredentials(users: seq<User>, request: LoginRequest, now: Ticks,
                                       generate: AccessTokenGenerator, newRefreshToken: string)
    requires forall j :: 0 <= j < |users| ==>
      !(users[j].username == request.username && users[j].passwordHash == request.password)
    ensures LoginStep(users, request, now, generate, newRefreshToken) == (users, Unauthorized(InvalidCredentialsMessage))
  {
    assert forall j :: 0 <= j < |users| ==> !Selects(ByCredentials(request.username, request.password), users[j]);
  }

  /**
   * A successful login rotates the session of the first user in table order whose
   * name and stored password equal the request's, returns exactly the token it
   * stored with an access token generated from that user's id, name and role,
   * and touches no other user and no other field.
   */
  lemma LoginRotatesFirstMatch(users: seq<User>, request: LoginRequest, now: Ticks,
                               generate: AccessTokenGenerator, newRefreshToken: string, i: nat)
    requires i < |users| && users[i].username == request.username && users[i].passwordHash == request.password
    requires forall j :: 0 <= j < i ==>
      !(users[j].username == request.username && users[j].passwordHash == request.password)
    ensures var (after, result) := LoginStep(users, request, now, generate, newRefreshToken);
      && result == Ok(AuthResponse(generate(users[i].id, users[i].username, users[i].role), newRefreshToken))
      && |after| == |users|
      && after[i].refreshToken == Some(result.response.refreshToken)
      && after[i].refreshTokenExpiryTime == now + RefreshTokenLifetime
      && SameAccount(after[i], users[i])
      && forall j :: 0 <= j < |users| && j != i ==> after[j] == users[j]
  {
    FirstMatchIs(users, ByCredentials(request.username, request.password), i);
  }

  /** Refresh with a token no user stores is refused and changes nothing. */
  lemma RefreshRejectsUnknownToken(users: seq<User>, request: RefreshRequest, now: Ticks,
                                   generate: AccessTokenGenerator, newRefreshToken: string)
    requires NotHeld(users, request.refreshToken)
    ensures RefreshStep(users, request, now, generate, newRefreshToken) == (users, Unauthorized(InvalidRefreshTokenMessage))
  {
    assert forall j :: 0 <= j < |users| ==> !Selects(ByRefreshToken(request.refreshToken), users[j]);
  }

  /** Refresh with the token of the first holder whose expiry is at or before `now` is refused and changes nothing. */
  lemma RefreshRejectsExpiredToken(users: seq<User>, request: RefreshRequest, now: Ticks,
                                   generate: AccessTokenGenerator, newRefreshToken: string, i: nat)
    requires i < |users| && users[i].refreshToken == Some(request.refreshToken)
    requires forall j :: 0 <= j < i ==> users[j].refreshToken != Some(request.refreshToken)
    requires users[i].refreshTokenExpiryTime <= now
    ensures RefreshStep(users, request, now, generate, newRefreshToken) == (users, Unauthorized(InvalidRefreshTokenMessage))
  {
    FirstMatchIs(users, ByRefreshToken(request.refreshToken), i);
  }

  /**
   * A refresh with an unexpired token rotates the holder's session: the stored
   * token becomes the new one, the expiry moves to seven days after `now`, the
   * response carries that new token, and nothing else changes.
   */
  lemma RefreshRotatesToken(users: seq<User>, request: RefreshRequest, now: Ticks,
                            generate: AccessTokenGenerator, newRefreshToken: string, i: nat)
    requires i < |users| && users[i].refreshToken == Some(request.refreshToken)
    requires forall j :: 0 <= j < i ==> users[j].refreshToken != Some(request.refreshToken)
    requires now < users[i].refreshTokenExpiryTime
    ensures var (after, result) := RefreshStep(users, request, now, generate, newRefreshToken);
      && result == Ok(AuthResponse(generate(users[i].id, users[i].username, users[i].role), newRefreshToken))
      && |after| == |users|
      && after[i].refreshToken == Some(result.response.refreshToken)
      && after[i].refreshTokenExpiryTime == now + RefreshTokenLifetime
      && SameAccount(after[i], users[i])
      && forall j :: 0 <= j < |users| && j != i ==> after[j] == users[j]
  {
    FirstMatchIs(users, ByRefreshToken(request.refreshToken), i);
  }

  /**
   * A refused exchange never changes the table; an accepted one changes at most
   * one user, and only that user's session fields.
   */
  lemma StepsChangeAtMostOneSession(users: seq<User>, now: Ticks, generate: AccessTokenGenerator,
                                    newRefreshToken: string, login: LoginRequest, refresh: RefreshRequest)
    ensures var (after, result) := LoginStep(users, login, now, generate, newRefreshToken);
      && (result.Unauthorized? ==> after == users)
      && |after| == |users| && (forall j :: 0 <= j < |users| ==> SameAccount(after[j], users[j]))
      && forall j, k :: 0 <= j < k < |users| && after[j] != users[j] ==> after[k] == users[k]
    ensures var (after, result) := RefreshStep(users, refresh, now, generate, newRefreshToken);
      && (result.Unauthorized? ==> after == users)
      && |after| == |users| && (forall j :: 0 <= j < |users| ==> SameAccount(after[j], users[j]))
      && forall j, k :: 0 <= j < k < |users| && after[j] != users[j] ==> after[k] == users[k]
  {
  }

  /**
   * Single use: once a refresh with `t` succeeds, presenting `t` again is refused,
   * provided the generator produced a different token and no other user held `t`.
   */
  lemma RefreshReplayFails(users: seq<User>, t: string, now: Ticks, generate: AccessTokenGenerator,
                           newRefreshToken: string, later: Ticks, generate2: AccessTokenGenerator, newRefreshToken2: string)
    requires newRefreshToken != t
    requires HeldAtMostOnce(users, t)
    requires RefreshStep(users, RefreshRequest(t), now, generate, newRefreshToken).1.Ok?
    ensures var after := RefreshStep(users, RefreshRequest(t), now, generate, newRefreshToken).0;
      RefreshStep(after, RefreshRequest(t), later, generate2, newRefreshToken2) == (after, Unauthorized(InvalidRefreshTokenMessage))
  {
    var q := ByRefreshToken(t);
    var i := FirstMatch(users, q).value;
    var after := RefreshStep(users, RefreshRequest(t), now, generate, newRefreshToken).0;
    assert after == users[i := Rotate(users[i], newRefreshToken, now)];
    forall j | 0 <= j < |after|
      ensures after[j].refreshToken != Some(t)
    {
      if j < i {
      } else if j > i {
        assert users[i].refreshToken == Some(t);
      }
    }
    RefreshRejectsUnknownToken(after, RefreshRequest(t), later, generate2, newRefreshToken2);
  }

  /**
   * Login followed by refresh: the token issued by a successful login, if no
   * other user held it, is accepted by a refresh strictly before it expires, and
   * the refresh hands back a different token when the generator's next token is fresh.
   */
  lemma LoginThenRefresh(users: seq<User>, request: LoginRequest, now: Ticks, generate: AccessTokenGenerator,
                         token: string, later: Ticks, generate2: AccessTokenGenerator, token2: string)
    requires NotHeld(users, token)
    requires LoginStep(users, request, now, generate, token).1.Ok?
    requires later < now + RefreshTokenLifetime
    ensures var afterLogin := LoginStep(users, request, now, generate, token).0;
      var (afterRefresh, result) := RefreshStep(afterLogin, RefreshRequest(token), later, generate2, token2);
      && result.Ok? && result.response.refreshToken == token2
      && (NotHeld(afterLogin, token2) ==> token2 != token)
      && (token2 != token ==> NotHeld(afterRefresh, token))
  {
    var i := FirstMatch(users, ByCredentials(request.username, request.password)).value;
    var afterLogin := LoginStep(users, request, now, generate, token).0;
    assert afterLogin == users[i := Rotate(users[i], token, now)];
    forall j | 0 <= j < i
      ensures !Selects(ByRefreshToken(token), afterLogin[j])
    {
      assert afterLogin[j] == users[j];
    }
    FirstMatchIs(afterLogin, ByRefreshToken(token), i);
    assert HeldAtMostOnce(afterLogin, token);
    if token2 != token {
      RefreshReplayFails(afterLogin, token, later, generate2, token2, later, generate2, token2);
      var afterRefresh := RefreshStep(afterLogin, RefreshRequest(token), later, generate2, token2).0;
      assert FirstMatch(afterRefresh, ByRefreshToken(token)).None?;
    }
  }

  /** With freshly generated refresh tokens, no two users ever share a token. */
  lemma StepsPreserveUniqueTokens(users: seq<User>, now: Ticks, generate: AccessTokenGenerator,
                                  newRefreshToken: string, login: LoginRequest, refresh: RefreshRequest)
    requires TokensUnique(users) && NotHeld(users, newRefreshToken)
    ensures TokensUnique(LoginStep(users, login, now, generate, newRefreshToken).0)
    ensures TokensUnique(RefreshStep(users, refresh, now, generate, newRefreshToken).0)
  {
    var after := LoginStep(users, login, now, generate, newRefreshToken).0;
    RotationKeepsUnique(users, after, newRefreshToken);
    after := RefreshStep(users, refresh, now, generate, newRefreshToken).0;
    RotationKeepsUnique(users, after, newRefreshToken);
  }

  lemma RotationKeepsUnique(users: seq<User>, after: seq<User>, token: string)
    requires TokensUnique(users) && NotHeld(users, token)
    requires |after| == |users|
    requires forall j :: 0 <= j < |users| ==> after[j] == users[j] || after[j].refreshToken == Some(token)
    requires forall j, k :: 0 <= j < k < |users| && after[j] != users[j] ==> after[k] == users[k]
    ensures TokensUnique(after)
  {
  }

  /** The session state of a user at time `now`. */
  datatype Session = NoSession | ActiveSession | ExpiredSession

  function SessionOf(u: User, now: Ticks): Session {
    if u.refreshToken.None? then NoSession
    else if now < u.refreshTokenExpiryTime then ActiveSession
    else ExpiredSession
  }

  /**
   * Whatever its previous state, the user a successful login or refresh picks is
   * in an active session for the next seven days, and only then.
   */
  lemma SuccessfulStepActivates(users: seq<User>, now: Ticks, generate: AccessTokenGenerator,
                                newRefreshToken: string, login: LoginRequest, refresh: RefreshRequest, later: Ticks)
    ensures var found := FirstMatch(users, ByCredentials(login.username, login.password));
      found.Some? ==>
        SessionOf(LoginStep(users, login, now, generate, newRefreshToken).0[found.value], later)
          == (if later < now + RefreshTokenLifetime then ActiveSession else ExpiredSession)
    ensures var (after, result) := RefreshStep(users, refresh, now, generate, newRefreshToken);
      var found := FirstMatch(users, ByRefreshToken(refresh.refreshToken));
      result.Ok? ==>
        SessionOf(after[found.value], later)
          == (if later < now + RefreshTokenLifetime then ActiveSession else ExpiredSession)
  {
  }

  /** A user without a session can never be selected by a refresh, so refresh never revives it. */
  lemma NoSessionNeverRefreshed(users: seq<User>, request: RefreshRequest, now: Ticks,
                                generate: AccessTokenGenerator, newRefreshToken: string, i: nat)
    requires i < |users| && SessionOf(users[i], now) == NoSession
    ensures RefreshStep(users, request, now, generate, newRefreshToken).0[i] == users[i]
  {
  }
}
