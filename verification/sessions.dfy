/** The admin session store of lib/auth.ts: a map from the keyed hash of a
    bearer token to its expiry instant. The random token is an input, the
    clock is an explicit parameter, and HMAC is a free constructor, hence
    injective in the token for a fixed secret. */
module Sessions {
  import opened Wrappers
  import opened Text
  import opened Environment
  import opened Config

  const SessionCookieName := "admin_session"
  /** 24 hours, in milliseconds. */
  const SessionDurationMs := 24 * 60 * 60 * 1000
  const SessionSecretVar := "SESSION_SECRET"
  const FallbackSecret := "insecure-fallback-secret"
  const BearerPrefix := "Bearer "

  /** HMAC-SHA256 of `message` under `secret`, as an uninterpreted value. */
  datatype Digest = Hmac(secret: string, message: string)

  /** Hashed token to expiry instant (ms). The raw token is never a key. */
  type Store = map<Digest, int>

  /** `getSessionSecret`: the dedicated secret, else the admin password hash,
      else a fixed fallback; never empty. */
  function SessionSecret(env: Env): (s: string)
    ensures s != ""
    ensures IsSet(env, SessionSecretVar) ==> s == env[SessionSecretVar]
    ensures !IsSet(env, SessionSecretVar) && IsSet(env, PasswordHashVar) ==> s == env[PasswordHashVar]
    ensures !IsSet(env, SessionSecretVar) && !IsSet(env, PasswordHashVar) ==> s == FallbackSecret
  {
    if IsSet(env, SessionSecretVar) then env[SessionSecretVar]
    else OrElse(env, PasswordHashVar, FallbackSecret)
  }

  /** `cleanupExpiredSessions`: drops exactly the entries that expired
      strictly before `now` and keeps every other entry as it was. */
  function Sweep(store: Store, now: int): (r: Store)
    ensures forall d :: d in r <==> d in store && store[d] >= now
    ensures forall d :: d in r ==> r[d] == store[d]
  {
    map d | d in store && store[d] >= now :: store[d]
  }

  datatype Issued = Issued(store: Store, token: string)

  /** `createSession` with `token` as the freshly generated random token:
      records its hash with expiry `now` + 24h, sweeps expired entries, and
      hands back the raw token. */
  function CreateSession(store: Store, token: string, now: int, secret: string): (r: Issued)
    ensures r.token == token
    ensures Hmac(secret, token) in r.store && r.store[Hmac(secret, token)] == now + SessionDurationMs
    ensures forall d :: d != Hmac(secret, token) ==>
      (d in r.store <==> d in store && store[d] >= now)
    ensures forall d :: d in r.store && d != Hmac(secret, token) ==> r.store[d] == store[d]
  {
    Issued(Sweep(store[Hmac(secret, token) := now + SessionDurationMs], now), token)
  }

  /** With a fresh token and no expired entry to sweep, creating a session
      adds exactly one entry. */
  lemma CreateAddsOne(store: Store, token: string, now: int, secret: string)
    requires Hmac(secret, token) !in store
    requires forall d :: d in store ==> store[d] >= now
    ensures CreateSession(store, token, now, secret).store.Keys == store.Keys + {Hmac(secret, token)}
    ensures |CreateSession(store, token, now, secret).store| == |store| + 1
  {
    var r := CreateSession(store, token, now, secret).store;
    assert r.Keys == store.Keys + {Hmac(secret, token)};
  }

  datatype Checked = Checked(store: Store, valid: bool)

  /** `validateSession`: true iff the token is non-empty and its hash is
      recorded with an expiry not before `now` (expiring exactly now is still
      valid). A valid check changes nothing; an expired entry is evicted;
      otherwise nothing changes. */
  function ValidateSession(store: Store, token: string, now: int, secret: string): (r: Checked)
    ensures r.valid <==> token != "" && Hmac(secret, token) in store && store[Hmac(secret, token)] >= now
    ensures token != "" && Hmac(secret, token) in store && store[Hmac(secret, token)] < now ==>
      r.store == store - {Hmac(secret, token)}
    ensures !(token != "" && Hmac(secret, token) in store && store[Hmac(secret, token)] < now) ==>
      r.store == store
  {
    if token == "" then Checked(store, false)
    else
      var h := Hmac(secret, token);
      if h !in store then Checked(store, false)
      else if store[h] < now then Checked(store - {h}, false)
      else Checked(store, true)
  }

  /** A token validates at the instant it is issued (the sweep inside
      creation never removes it), and stays valid through the 24 hours. */
  lemma CreatedSessionValidates(store: Store, token: string, now: int, later: int, secret: string)
    requires token != ""
    requires now <= later <= now + SessionDurationMs
    ensures var s := CreateSession(store, token, now, secret).store;
      ValidateSession(s, token, later, secret) == Checked(s, true)
  {
  }

  /** Past its 24 hours a token no longer validates, and checking it evicts
      its entry. */
  lemma CreatedSessionExpires(store: Store, token: string, now: int, later: int, secret: string)
    requires token != ""
    requires later > now + SessionDurationMs
    ensures var s := CreateSession(store, token, now, secret).store;
      ValidateSession(s, token, later, secret) == Checked(s - {Hmac(secret, token)}, false)
  {
  }

  /** A token other than the issued one (a tampered token) does not validate
      against a store holding only the issued one. */
  lemma OtherTokenRejected(token: string, other: string, now: int, later: int, secret: string)
    requires other != token
    ensures var s := CreateSession(map[], token, now, secret).store;
      !ValidateSession(s, other, later, secret).valid
  {
  }

  /** `invalidateSession`: removes the token's entry, whatever its state. */
  function InvalidateSession(store: Store, token: string, secret: string): (r: Store)
    ensures Hmac(secret, token) !in r
    ensures forall d :: d != Hmac(secret, token) ==> (d in r <==> d in store)
    ensures forall d :: d in r ==> r[d] == store[d]
  {
    store - {Hmac(secret, token)}
  }

  /** After invalidation the token never validates again, at any instant,
      and validating it changes nothing. */
  lemma InvalidatedStaysInvalid(store: Store, token: string, now: int, secret: string)
    ensures var s := InvalidateSession(store, token, secret);
      ValidateSession(s, token, now, secret) == Checked(s, false)
  {
  }

  /** `getSessionFromRequest`: a `Bearer ` Authorization header yields what
      follows the prefix (possibly empty); otherwise the session cookie,
      where a missing or empty cookie yields nothing. */
  function SessionFromRequest(authorization: Option<string>, cookie: Option<string>): (t: Option<string>)
    ensures authorization.Some? && StartsWith(authorization.value, BearerPrefix) ==>
      t == Some(authorization.value[|BearerPrefix|..])
    ensures !(authorization.Some? && StartsWith(authorization.value, BearerPrefix)) ==>
      (t.Some? <==> cookie.Some? && cookie.value != "") && (t.Some? ==> t == cookie)
  {
    if authorization.Some? && StartsWith(authorization.value, BearerPrefix) then
      Some(authorization.value[|BearerPrefix|..])
    else if cookie.Some? && cookie.value != "" then cookie
    else None
  }

  /** The header the client builds from a token gives that token back, and
      takes precedence over any cookie. */
  lemma BearerRoundTrip(token: string, cookie: Option<string>)
    ensures SessionFromRequest(Some(BearerPrefix + token), cookie) == Some(token)
  {
    var h := BearerPrefix + token;
    assert h[..|BearerPrefix|] == BearerPrefix;
    assert h[|BearerPrefix|..] == token;
  }

  /** `requireAuth`: passes (no 401) iff a non-empty token was presented and
      it validates; the store changes only by the eviction validation
      performs. */
  function RequireAuth(store: Store, authorization: Option<string>, cookie: Option<string>,
                       now: int, secret: string): (r: Checked)
    ensures var t := SessionFromRequest(authorization, cookie);
      r.valid <==> t.Some? && t.value != "" && ValidateSession(store, t.value, now, secret).valid
    ensures var t := SessionFromRequest(authorization, cookie);
      r.store == (if t.Some? && t.value != "" then ValidateSession(store, t.value, now, secret).store else store)
  {
    var t := SessionFromRequest(authorization, cookie);
    if t.None? || t.value == "" then Checked(store, false)
    else ValidateSession(store, t.value, now, secret)
  }

  datatype Cookie = Cookie(
    name: string,
    value: string,
    httpOnly: bool,
    secure: bool,
    sameSiteStrict: bool,
    maxAgeSecs: int,
    path: string)

  /** The cookie `createAuthResponse` sets: the token itself, HTTP-only,
      same-site strict, on the whole site, living exactly as long as the
      session, and secure only in production. */
  function AuthCookie(token: string, production: bool): (c: Cookie)
    ensures c.name == SessionCookieName && c.value == token
    ensures c.httpOnly && c.sameSiteStrict && c.path == "/" && c.secure == production
    ensures c.maxAgeSecs * 1000 == SessionDurationMs
  {
    Cookie(SessionCookieName, token, true, production, true, SessionDurationMs / 1000, "/")
  }

  /** The cookie `createLogoutResponse` sets: same name and attributes, empty
      value, expiring at once. */
  function LogoutCookie(production: bool): (c: Cookie)
    ensures c.name == SessionCookieName && c.value == "" && c.maxAgeSecs == 0
    ensures c.httpOnly && c.sameSiteStrict && c.path == "/" && c.secure == production
  {
    Cookie(SessionCookieName, "", true, production, true, 0, "/")
  }

  /** A browser sending back the login cookie (without an Authorization
      header) presents the token; the logout cookie presents nothing. */
  lemma CookieRoundTrip(token: string, production: bool)
    requires token != ""
    ensures SessionFromRequest(None, Some(AuthCookie(token, production).value)) == Some(token)
    ensures SessionFromRequest(None, Some(LogoutCookie(production).value)).None?
  {
  }
}
