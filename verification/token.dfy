/** `getToken`: returns the stored OAuth access token, refreshing it through
    the token API when it expires within the next minute. The stored session,
    the clock and the refresh endpoint's answer are inputs; the reply carries
    the promise's outcome, the session written back to storage, and the body of
    the refresh request when one is sent. */
module Token {
  import opened Base
  import Json

  /** The three storage keys `accessToken`, `refreshToken`, `expiresAt` (unix seconds). */
  datatype Session = Session(accessToken: Option<string>, refreshToken: Option<string>, expiresAt: Option<int>)

  /** What the refresh endpoint does with one request. */
  datatype RefreshOutcome =
    | RefreshOk(accessToken: string, expiresAt: int)  // 2xx with `{accessToken, expiresAt}`
    | RefreshRefused(body: string)                    // non-2xx with a JSON body
    | RefreshBroken                                   // the fetch throws, or the body is not JSON

  /** The environment of one call: the clock (`Date.now()`) and the answer the
      refresh endpoint gives if a request is sent. */
  datatype TokenEnv = TokenEnv(nowMs: int, refresh: RefreshOutcome)

  /** How the returned promise settles; `Pending` is a promise that never does. */
  datatype TokenResult = Resolved(token: string) | ResolvedNull | Rejected(reason: string) | Pending

  datatype TokenReply = TokenReply(result: TokenResult, session: Session, refreshBody: Option<string>)

  /** A token expiring within this many seconds is refreshed. */
  const RefreshWindow: int := 60

  /** `reject('request failed: ', data)` passes only its first argument on. */
  const RejectReason: string := "request failed: "

  /** JavaScript truthiness of a stored string: present and non-empty. */
  predicate Truthy(s: Option<string>) {
    s.Some? && s.value != ""
  }

  /** `Math.floor(ms / 1000)`. */
  function NowInSeconds(ms: int): (sec: int)
    ensures sec * 1000 <= ms < sec * 1000 + 1000
  {
    ms / 1000
  }

  /** `expiresAt <= nowPlus60`; an absent `expiresAt` is `undefined`, and the
      comparison is then false. */
  predicate ExpiresSoon(s: Session, nowMs: int): (b: bool)
    // in milliseconds: the token lapses no later than a minute from now
    ensures b <==> s.expiresAt.Some? && s.expiresAt.value * 1000 <= nowMs + RefreshWindow * 1000
  {
    s.expiresAt.Some? && s.expiresAt.value <= NowInSeconds(nowMs) + RefreshWindow
  }

  /** The decision shared by the code as written and its corrected form; they
      differ only in how a broken refresh response settles the promise. */
  function Decide(s: Session, env: TokenEnv, onBroken: TokenResult): TokenReply {
    if !Truthy(s.accessToken) then TokenReply(ResolvedNull, s, None)
    else if ExpiresSoon(s, env.nowMs) then
      var body := Json.EncodeRefreshBody(s.refreshToken);
      match env.refresh
      case RefreshOk(t, e) =>
        TokenReply(Resolved(t), s.(accessToken := Some(t), expiresAt := Some(e)), Some(body))
      case RefreshRefused(_) => TokenReply(Rejected(RejectReason), s, Some(body))
      case RefreshBroken => TokenReply(onBroken, s, Some(body))
    else TokenReply(Resolved(s.accessToken.value), s, None)
  }

  /** `getToken` as written. A refresh whose fetch throws, or whose response
      body is not JSON, raises inside the storage callback, outside the promise
      executor, so the promise never settles. */
  function GetToken(s: Session, env: TokenEnv): (r: TokenReply)
    // not logged in: null, no request, nothing written
    ensures !Truthy(s.accessToken) ==> r == TokenReply(ResolvedNull, s, None)
    // a refresh request is sent exactly when a token is stored and expires within the window
    ensures r.refreshBody.Some? <==> Truthy(s.accessToken) && ExpiresSoon(s, env.nowMs)
    // without a refresh the stored token comes back and storage is untouched
    ensures (Truthy(s.accessToken) && !ExpiresSoon(s, env.nowMs)) ==>
              r.result == Resolved(s.accessToken.value) && r.session == s
    // a successful refresh writes token and expiry together and returns the new token
    ensures (r.refreshBody.Some? && env.refresh.RefreshOk?) ==>
              r.result == Resolved(env.refresh.accessToken)
              && r.session == Session(Some(env.refresh.accessToken), s.refreshToken, Some(env.refresh.expiresAt))
    // a refused refresh rejects and leaves the stored session as it was
    ensures r.refreshBody.Some? && env.refresh.RefreshRefused? ==> r.result == Rejected(RejectReason) && r.session == s
    // the refresh token is never rewritten
    ensures r.session.refreshToken == s.refreshToken
  {
    Decide(s, env, Pending)
  }

  /** The refresh request's body carries the stored refresh token. */
  lemma RefreshCarriesRefreshToken(s: Session, env: TokenEnv)
    ensures var r := GetToken(s, env);
            r.refreshBody.Some? ==> Json.DecodeRefreshBody(r.refreshBody.value) == Some(s.refreshToken)
  {
    Json.DecodeEncodedRefreshBody(s.refreshToken);
  }

  /** Storage is either left alone or gets a new token and expiry together. */
  predicate WrittenTogether(before: Session, after: Session) {
    after == before
    || (after.refreshToken == before.refreshToken && after.accessToken.Some? && after.expiresAt.Some?)
  }

  /** Every resolved token is the one then held in storage, and the session is
      never half updated. */
  lemma ResolvedTokenIsStored(s: Session, env: TokenEnv)
    ensures var r := GetToken(s, env);
            WrittenTogether(s, r.session)
            && ((r.result.Resolved? && r.result.token != "") ==>
                  Truthy(r.session.accessToken) && r.session.accessToken.value == r.result.token)
  {
  }

  /** The finding, as written: a broken refresh response leaves the promise pending. */
  lemma BrokenRefreshNeverSettles(s: Session, env: TokenEnv)
    requires Truthy(s.accessToken) && ExpiresSoon(s, env.nowMs) && env.refresh == RefreshBroken
    ensures GetToken(s, env).result == Pending
  {
  }

  /** `getToken` with the evident intent: every failed refresh rejects. */
  function GetTokenSettled(s: Session, env: TokenEnv): (r: TokenReply)
    ensures r.result != Pending
    ensures GetToken(s, env).result != Pending ==> r == GetToken(s, env)
    ensures GetToken(s, env).result == Pending ==>
              r == GetToken(s, env).(result := Rejected(RejectReason))
  {
    Decide(s, env, Rejected(RejectReason))
  }

  /** A session that yielded a usable token keeps yielding one: the next call
      resolves to a token or rejects, and never to null. */
  lemma SettledTokenPersists(s: Session, env1: TokenEnv, env2: TokenEnv)
    requires GetTokenSettled(s, env1).result.Resolved? && GetTokenSettled(s, env1).result.token != ""
    ensures var r2 := GetTokenSettled(GetTokenSettled(s, env1).session, env2);
            r2.result.Resolved? || r2.result.Rejected?
  {
    ResolvedTokenIsStored(s, env1);
  }

  /** Once refreshed to an expiry that lies more than the window past the
      next call's time, that call hands back the same token without a request. */
  lemma FreshTokenReused(s: Session, env1: TokenEnv, env2: TokenEnv)
    requires env1.refresh.RefreshOk? && env1.refresh.accessToken != ""
    requires Truthy(s.accessToken) && ExpiresSoon(s, env1.nowMs)
    requires env1.refresh.expiresAt > NowInSeconds(env2.nowMs) + RefreshWindow
    ensures var r1 := GetToken(s, env1);
            GetToken(r1.session, env2) == TokenReply(Resolved(env1.refresh.accessToken), r1.session, None)
  {
  }
}
