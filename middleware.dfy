/**
  * The authentication gate (`internal/shared/middleware/auth.go`): every protected
  * request either carries a session cookie that decrypts, and goes on to the next
  * handler with the user id in its context, or is redirected to the login page.
  */
module Middleware {
  import opened Common
  import Uuid
  import Gcm
  import Http
  import Cookie

  /** `userIDKey`: a key of the package's own `contextKey` type, so no other package's key equals it. */
  const UserIDKey: Http.ContextKey := Http.ContextKey("middleware.contextKey", "userID")

  /** `GetUserID`: the stored user id, or the zero UUID when none (or a non-UUID) is stored. */
  function GetUserID(ctx: Http.Context): (id: Uuid.UUID)
    ensures UserIDKey in ctx && ctx[UserIDKey].UUIDValue? ==> id == ctx[UserIDKey].id
    ensures UserIDKey !in ctx || !ctx[UserIDKey].UUIDValue? ==> id == Uuid.Nil
  {
    if UserIDKey in ctx && ctx[UserIDKey].UUIDValue? then ctx[UserIDKey].id else Uuid.Nil
  }

  /** What the middleware does with one request. */
  datatype Outcome =
    | Redirect(location: string, code: int)  // http.Redirect; `next` is not called
    | Next(request: Http.Request)            // next.ServeHTTP(w, request), once

  /** `http.StatusSeeOther`. */
  const StatusSeeOther := 303

  /**
    * The handler `NewAuthMiddleware(secretKey)(next)` runs for each request. `aead` and
    * `parse` stand for AES-GCM and `uuid.Parse`.
    */
  function AuthMiddleware(
    secretKey: Bytes, aead: Gcm.Aead, parse: Bytes -> Option<Uuid.UUID>, r: Http.Request)
    : (o: Outcome)
    ensures o.Redirect? <==> Cookie.GetCookie(r, secretKey, aead, parse).Err?
    ensures o.Redirect? ==> o == Redirect("/login", StatusSeeOther)
    ensures o.Next? ==>
      && o.request.cookies == r.cookies
      && GetUserID(o.request.ctx) == Cookie.GetCookie(r, secretKey, aead, parse).value
      && forall k | k in r.ctx && k != UserIDKey :: k in o.request.ctx && o.request.ctx[k] == r.ctx[k]
  {
    match Cookie.GetCookie(r, secretKey, aead, parse)
    case Err(_) => Redirect("/login", StatusSeeOther)
    case Ok(userID) =>
      var ctx := Http.WithValue(r.ctx, UserIDKey, Http.UUIDValue(userID));
      Next(r.(ctx := ctx))
  }

  /** Two refused requests get the same response, whatever made each one fail. */
  lemma RefusalLeaksNothing(
    secretKey: Bytes, aead: Gcm.Aead, parse: Bytes -> Option<Uuid.UUID>, r1: Http.Request, r2: Http.Request)
    requires AuthMiddleware(secretKey, aead, parse, r1).Redirect?
    requires AuthMiddleware(secretKey, aead, parse, r2).Redirect?
    ensures AuthMiddleware(secretKey, aead, parse, r1) == AuthMiddleware(secretKey, aead, parse, r2)
  {
  }

  /**
    * A request whose first `session` cookie is one `SetCookie` issued for `userId` under
    * the same key passes the gate, and downstream `GetUserID` gives back `userId`.
    */
  lemma IssuedCookiePasses(
    userId: Uuid.UUID, secretKey: Bytes, aead: Gcm.Aead, entropy: Bytes,
    parse: Bytes -> Option<Uuid.UUID>, r: Http.Request)
    requires Gcm.Correct(aead) && Uuid.ParseInverts(parse)
    requires Gcm.ValidKeySize(secretKey) && |entropy| >= Gcm.NonceSize
    requires Http.CookieValue(r.cookies, Cookie.CookieName)
      == Some(Cookie.Encrypt(userId, secretKey, Cookie.CookieName, aead, entropy).value)
    ensures AuthMiddleware(secretKey, aead, parse, r).Next?
    ensures GetUserID(AuthMiddleware(secretKey, aead, parse, r).request.ctx) == userId
  {
    Cookie.SessionRoundTrip(userId, secretKey, aead, entropy, parse);
  }

  /** A request without any `session` cookie is redirected to the login page. */
  lemma NoCookieRedirects(
    secretKey: Bytes, aead: Gcm.Aead, parse: Bytes -> Option<Uuid.UUID>, r: Http.Request)
    requires forall i | 0 <= i < |r.cookies| :: r.cookies[i].0 != Cookie.CookieName
    ensures AuthMiddleware(secretKey, aead, parse, r) == Redirect("/login", StatusSeeOther)
  {
  }

  /** Storing a user id under `userIDKey` is what `GetUserID` reads back. */
  lemma GetUserIDReadsStored(ctx: Http.Context, id: Uuid.UUID)
    ensures GetUserID(Http.WithValue(ctx, UserIDKey, Http.UUIDValue(id))) == id
  {
  }

  /** Values stored under other keys do not change what `GetUserID` reads. */
  lemma OtherKeysInvisible(ctx: Http.Context, key: Http.ContextKey, value: Http.ContextValue)
    requires key != UserIDKey
    ensures GetUserID(Http.WithValue(ctx, key, value)) == GetUserID(ctx)
  {
  }
}
