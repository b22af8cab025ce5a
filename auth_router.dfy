/**
  * The login handler (`internal/components/auth/router.go`, `HandleLogInFlow`): the form's
  * credentials are checked, and the reply is a 401 fragment, a 500 fragment, or the
  * session cookie with an `HX-Redirect` to the main page.
  */
module AuthRouter {
  import opened Common
  import Uuid
  import Gcm
  import Http
  import Cookie
  import Middleware
  import AuthService

  const StatusOK := 200
  const StatusUnauthorized := 401
  const StatusInternalServerError := 500

  const UnauthorizedBody := "<div id=\"error\" class=\"error\">Invalid username or password</div>"
  const LoginFailedBody := "<div id=\"error\" class=\"error\">Login failed. Please try again.</div>"

  /** Which of the handler's exits a login attempt takes. */
  datatype Outcome =
    | Unauthorized          // ValidateCredentials failed
    | LoginFailed           // SetCookie failed
    | LoggedIn(token: Bytes) // the session cookie carries `token`
    | Panicked              // uuid.MustParse or GetSecretKey panicked

  /**
    * The exit taken. `entropy` is what `crypto/rand` delivers, `compare` and `parse` stand
    * for bcrypt and `uuid.Parse`, `aead` for AES-GCM.
    */
  function LogInOutcome(
    cfg: AuthService.Config, username: Bytes, password: Bytes,
    compare: (Bytes, Bytes) -> bool, parse: Bytes -> Option<Uuid.UUID>,
    aead: Gcm.Aead, entropy: Bytes)
    : (o: Outcome)
    ensures o == Unauthorized
      <==> AuthService.ValidateCredentials(cfg, username, password, compare, parse)
           == Err(AuthService.ErrInvalidCredentials)
    ensures o.LoggedIn? || o == LoginFailed ==>
      && AuthService.ValidateCredentials(cfg, username, password, compare, parse).Ok?
      && AuthService.GetSecretKey(cfg).Ok?
    ensures o == LoginFailed <==>
      && AuthService.ValidateCredentials(cfg, username, password, compare, parse).Ok?
      && AuthService.GetSecretKey(cfg).Ok?
      && Cookie.Encrypt(AuthService.ValidateCredentials(cfg, username, password, compare, parse).value.id,
           AuthService.GetSecretKey(cfg).value, Cookie.CookieName, aead, entropy).Err?
    ensures o.LoggedIn? <==>
      && AuthService.ValidateCredentials(cfg, username, password, compare, parse).Ok?
      && AuthService.GetSecretKey(cfg).Ok?
      && Cookie.Encrypt(AuthService.ValidateCredentials(cfg, username, password, compare, parse).value.id,
           AuthService.GetSecretKey(cfg).value, Cookie.CookieName, aead, entropy).Ok?
    ensures o == Panicked <==>
      || (AuthService.ValidateCredentials(cfg, username, password, compare, parse).Err?
          && AuthService.ValidateCredentials(cfg, username, password, compare, parse).error.Panic?)
      || (AuthService.ValidateCredentials(cfg, username, password, compare, parse).Ok?
          && AuthService.GetSecretKey(cfg).Err?)
    ensures o.LoggedIn? ==>
      o.token == Cookie.Encrypt(AuthService.ValidateCredentials(cfg, username, password, compare, parse).value.id,
        AuthService.GetSecretKey(cfg).value, Cookie.CookieName, aead, entropy).value
  {
    match AuthService.ValidateCredentials(cfg, username, password, compare, parse)
    case Err(e) => if e.Panic? then Panicked else Unauthorized
    case Ok(user) =>
      match AuthService.GetSecretKey(cfg)
      case Err(_) => Panicked
      case Ok(key) =>
        match Cookie.Encrypt(user.id, key, Cookie.CookieName, aead, entropy)
        case Err(_) => LoginFailed
        case Ok(token) => LoggedIn(token)
  }

  /**
    * `HandleLogInFlow` on a response nothing has been written to yet. `panicked` reports
    * a panic, before which nothing was written.
    */
  method HandleLogInFlow(
    w: Http.ResponseWriter, cfg: AuthService.Config, username: Bytes, password: Bytes,
    compare: (Bytes, Bytes) -> bool, parse: Bytes -> Option<Uuid.UUID>,
    aead: Gcm.Aead, entropy: Bytes)
    returns (panicked: bool)
    requires w.status == 0
    modifies w
    ensures panicked <==> LogInOutcome(cfg, username, password, compare, parse, aead, entropy) == Panicked
    ensures panicked ==>
      w.header == old(w.header) && w.cookies == old(w.cookies) && w.status == 0 && w.body == old(w.body)
    ensures LogInOutcome(cfg, username, password, compare, parse, aead, entropy) == Unauthorized ==>
      && w.status == StatusUnauthorized && w.body == old(w.body) + UnauthorizedBody
      && w.header == old(w.header)["Content-Type" := "text/html"] && w.cookies == old(w.cookies)
    ensures LogInOutcome(cfg, username, password, compare, parse, aead, entropy) == LoginFailed ==>
      && w.status == StatusInternalServerError && w.body == old(w.body) + LoginFailedBody
      && w.header == old(w.header)["Content-Type" := "text/html"] && w.cookies == old(w.cookies)
    ensures LogInOutcome(cfg, username, password, compare, parse, aead, entropy).LoggedIn? ==>
      && w.status == StatusOK && w.body == old(w.body)
      && w.header == old(w.header)["HX-Redirect" := "/"]
      && w.cookies == old(w.cookies)
        + [Cookie.SessionCookie(LogInOutcome(cfg, username, password, compare, parse, aead, entropy).token)]
  {
    var user := AuthService.ValidateCredentials(cfg, username, password, compare, parse);
    if user.Err? {
      if user.error.Panic? {
        return true;
      }
      w.SetHeader("Content-Type", "text/html");
      w.WriteHeader(StatusUnauthorized);
      w.Write(UnauthorizedBody);
      return false;
    }
    var key := AuthService.GetSecretKey(cfg);
    if key.Err? {
      return true;
    }
    var err := Cookie.SetCookie(w, user.value.id, key.value, aead, entropy);
    if err.Some? {
      w.SetHeader("Content-Type", "text/html");
      w.WriteHeader(StatusInternalServerError);
      w.Write(LoginFailedBody);
      return false;
    }
    w.SetHeader("HX-Redirect", "/");
    w.WriteHeader(StatusOK);
    return false;
  }

  /** A 401 reply carries no cookie: `SetCookie` was never reached. */
  lemma RejectedLoginSetsNoCookie(
    cfg: AuthService.Config, username: Bytes, password: Bytes,
    compare: (Bytes, Bytes) -> bool, parse: Bytes -> Option<Uuid.UUID>, aead: Gcm.Aead, entropy: Bytes)
    requires username != cfg.username || !compare(cfg.passwordHash, password)
    ensures LogInOutcome(cfg, username, password, compare, parse, aead, entropy) == Unauthorized
  {
  }

  /**
    * End to end: with the right name and password, a well-formed configuration and enough
    * randomness, the login succeeds, and a later request carrying the cookie it set passes
    * the authentication middleware as the configured user.
    */
  lemma LoginAdmitsConfiguredUser(
    cfg: AuthService.Config, password: Bytes, compare: (Bytes, Bytes) -> bool,
    parse: Bytes -> Option<Uuid.UUID>, aead: Gcm.Aead, entropy: Bytes,
    u: Uuid.UUID, key: Bytes, r: Http.Request)
    requires Gcm.Correct(aead) && Uuid.ParseInverts(parse)
    requires compare(cfg.passwordHash, password)
    requires cfg.userId == Uuid.String(u)
    requires AuthService.GetSecretKey(cfg) == Ok(key) && Gcm.ValidKeySize(key)
    requires |entropy| >= Gcm.NonceSize
    ensures LogInOutcome(cfg, cfg.username, password, compare, parse, aead, entropy).LoggedIn?
    ensures var token := LogInOutcome(cfg, cfg.username, password, compare, parse, aead, entropy).token;
      Http.CookieValue(r.cookies, Cookie.CookieName) == Some(token) ==>
        && Middleware.AuthMiddleware(key, aead, parse, r).Next?
        && Middleware.GetUserID(Middleware.AuthMiddleware(key, aead, parse, r).request.ctx) == u
  {
    var token := LogInOutcome(cfg, cfg.username, password, compare, parse, aead, entropy).token;
    if Http.CookieValue(r.cookies, Cookie.CookieName) == Some(token) {
      Middleware.IssuedCookiePasses(u, key, aead, entropy, parse, r);
    }
  }
}
