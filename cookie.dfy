/**
  * The session token and its cookie (`internal/shared/cookie/cookie.go`).
  *
  * A token is `base64url(nonce || Seal(key, nonce, name + ":" + userId.String()))`.
  * Putting the cookie's name inside the sealed claim means a token minted for one
  * cookie name is refused under any other. `Decrypt` fails closed: every way a token
  * can be wrong ends in `ErrInvalidValue`; only an unusable key gives a different error.
  */
module Cookie {
  import opened Common
  import Base64Url
  import Gcm
  import Uuid
  import Http

  /** `cookieName`. */
  const CookieName: Bytes := Ascii("session")

  /**
    * The errors the cookie functions return: the package's own `ErrInvalidValue` and
    * (unused) `ErrValueTooLong`, `aes.KeySizeError`, what `io.ReadFull` reports when the
    * random source runs dry, and `http.ErrNoCookie`.
    */
  datatype Error =
    | ErrInvalidValue
    | ErrValueTooLong
    | KeySizeError(size: int)
    | EOF
    | ErrUnexpectedEOF
    | ErrNoCookie

  /** The plaintext that is sealed: `name + ":" + userId.String()`. */
  function Claim(name: Bytes, userId: Uuid.UUID): (p: Bytes)
    ensures |p| == |name| + 37
    ensures Colon !in name ==> Cut(p) == Some((name, Uuid.String(userId)))
  {
    var p := name + [Colon] + Uuid.String(userId);
    assert Colon !in name ==> Cut(p) == Some((name, Uuid.String(userId))) by {
      if Colon !in name { CutJoin(name, Uuid.String(userId)); }
    }
    p
  }

  /**
    * `encrypt`. `entropy` is what `rand.Reader` delivers: `io.ReadFull` takes the first
    * `NonceSize` bytes, and fails with `EOF` when there are none and with
    * `ErrUnexpectedEOF` when there are too few.
    */
  function Encrypt(userId: Uuid.UUID, secret: Bytes, name: Bytes, aead: Gcm.Aead, entropy: Bytes)
    : (r: Result<Bytes, Error>)
    ensures r.Ok? <==> Gcm.ValidKeySize(secret) && |entropy| >= Gcm.NonceSize
    ensures !Gcm.ValidKeySize(secret) ==> r == Err(KeySizeError(|secret|))
    ensures Gcm.ValidKeySize(secret) && |entropy| < Gcm.NonceSize ==>
      r == Err(if |entropy| == 0 then EOF else ErrUnexpectedEOF)
    ensures r.Ok? ==>
      var nonce := entropy[..Gcm.NonceSize];
      Base64Url.Decode(r.value) == Some(nonce + aead.seal(secret, nonce, Claim(name, userId)))
  {
    if !Gcm.ValidKeySize(secret) then Err(KeySizeError(|secret|))
    else if |entropy| == 0 then Err(EOF)
    else if |entropy| < Gcm.NonceSize then Err(ErrUnexpectedEOF)
    else
      var nonce := entropy[..Gcm.NonceSize];
      var encryptedValue := nonce + aead.seal(secret, nonce, Claim(name, userId));
      Base64Url.DecodeEncode(encryptedValue);
      Ok(Base64Url.Encode(encryptedValue))
  }

  /**
    * What authenticates inside a token: the base64url-decoded bytes, split into the
    * nonce and the rest, opened under `secret`. `None` when any of the three steps fails.
    */
  ghost function Opened(token: Bytes, secret: Bytes, aead: Gcm.Aead): Option<Bytes> {
    match Base64Url.Decode(token)
    case None => None
    case Some(v) =>
      if |v| < Gcm.NonceSize then None
      else aead.open(secret, v[..Gcm.NonceSize], v[Gcm.NonceSize..])
  }

  /**
    * A plaintext is accepted for `name` when it is `name`, a `:`, and text `parse`
    * reads as a UUID, with `name` itself free of `:`.
    */
  ghost predicate Accepted(plaintext: Bytes, name: Bytes, parse: Bytes -> Option<Uuid.UUID>) {
    && Colon !in name
    && |plaintext| > |name|
    && plaintext[..|name|] == name
    && plaintext[|name|] == Colon
    && parse(plaintext[|name| + 1..]).Some?
  }

  /** `decrypt`. `parse` is `uuid.Parse`. */
  function Decrypt(
    token: Bytes, secret: Bytes, expectedName: Bytes, aead: Gcm.Aead, parse: Bytes -> Option<Uuid.UUID>)
    : (r: Result<Uuid.UUID, Error>)
    // bad base64 is refused before the key is looked at
    ensures Base64Url.Decode(token).None? ==> r == Err(ErrInvalidValue)
    // an unusable key is reported as the cipher's own error
    ensures Base64Url.Decode(token).Some? && !Gcm.ValidKeySize(secret) ==> r == Err(KeySizeError(|secret|))
    ensures r.Err? && r.error != ErrInvalidValue ==>
      !Gcm.ValidKeySize(secret) && r.error == KeySizeError(|secret|)
    // too short, failed authentication
    ensures Gcm.ValidKeySize(secret) && Opened(token, secret, aead).None? ==> r == Err(ErrInvalidValue)
    // success exactly for an authentic claim carrying the expected name
    ensures r.Ok? <==>
      && Gcm.ValidKeySize(secret)
      && Opened(token, secret, aead).Some?
      && Accepted(Opened(token, secret, aead).value, expectedName, parse)
    ensures r.Ok? ==>
      var plaintext := Opened(token, secret, aead).value;
      parse(plaintext[|expectedName| + 1..]) == Some(r.value)
  {
    match Base64Url.Decode(token)
    case None => Err(ErrInvalidValue)
    case Some(value) =>
      if !Gcm.ValidKeySize(secret) then Err(KeySizeError(|secret|))
      else if |value| < Gcm.NonceSize then Err(ErrInvalidValue)
      else
        match aead.open(secret, value[..Gcm.NonceSize], value[Gcm.NonceSize..])
        case None => Err(ErrInvalidValue)
        case Some(plaintext) =>
          match Cut(plaintext)
          case None =>
            assert !Accepted(plaintext, expectedName, parse);
            Err(ErrInvalidValue)
          case Some((actualName, userIdStr)) =>
            CutAccepted(plaintext, actualName, userIdStr, expectedName, parse);
            if actualName != expectedName then Err(ErrInvalidValue)
            else
              match parse(userIdStr)
              case None => Err(ErrInvalidValue)
              case Some(id) => Ok(id)
  }

  /** Cutting at the first `:` and comparing the label decides `Accepted`. */
  lemma CutAccepted(
    plaintext: Bytes, actualName: Bytes, rest: Bytes, name: Bytes, parse: Bytes -> Option<Uuid.UUID>)
    requires plaintext == actualName + [Colon] + rest && Colon !in actualName
    ensures Accepted(plaintext, name, parse) <==> actualName == name && parse(rest).Some?
  {
    assert plaintext[..|actualName|] == actualName;
    assert plaintext[|actualName|] == Colon;
    assert plaintext[|actualName| + 1..] == rest;
  }

  /** `GetCookie`: the first `session` cookie of the request, decrypted. */
  function GetCookie(r: Http.Request, secret: Bytes, aead: Gcm.Aead, parse: Bytes -> Option<Uuid.UUID>)
    : (res: Result<Uuid.UUID, Error>)
    ensures res == Err(ErrNoCookie) <==> Http.CookieValue(r.cookies, CookieName).None?
    ensures Http.CookieValue(r.cookies, CookieName).Some? ==> exists i | 0 <= i < |r.cookies| ::
      && r.cookies[i].0 == CookieName && (forall j | 0 <= j < i :: r.cookies[j].0 != CookieName)
      && Decrypt(r.cookies[i].1, secret, CookieName, aead, parse) == res
  {
    match Http.CookieValue(r.cookies, CookieName)
    case None => Err(ErrNoCookie)
    case Some(value) => Decrypt(value, secret, CookieName, aead, parse)
  }

  /** The cookie `SetCookie` writes: HttpOnly, Secure, Path `/`, no expiry. */
  function SessionCookie(value: Bytes): (c: Http.Cookie)
    ensures c.name == CookieName && c.value == value
    ensures c.httpOnly && c.secure && c.path == "/" && c.maxAge == 0
  {
    Http.Cookie(CookieName, value, "/", true, true, 0)
  }

  /** `SetCookie`: writes the session cookie, or nothing when `encrypt` fails. */
  method SetCookie(
    w: Http.ResponseWriter, userID: Uuid.UUID, secret: Bytes, aead: Gcm.Aead, entropy: Bytes)
    returns (err: Option<Error>)
    modifies w
    ensures err.None? <==> Encrypt(userID, secret, CookieName, aead, entropy).Ok?
    ensures err.Some? ==> Encrypt(userID, secret, CookieName, aead, entropy) == Err(err.value)
    ensures w.cookies == if err.None? && old(w.status) == 0
      then old(w.cookies) + [SessionCookie(Encrypt(userID, secret, CookieName, aead, entropy).value)]
      else old(w.cookies)
    ensures w.header == old(w.header) && w.status == old(w.status) && w.body == old(w.body)
  {
    var encryptedValue := Encrypt(userID, secret, CookieName, aead, entropy);
    if encryptedValue.Err? {
      return Some(encryptedValue.error);
    }
    w.AddCookie(SessionCookie(encryptedValue.value));
    return None;
  }

  /** `cookieName` holds no `:`, so its claims split where they were joined. */
  lemma CookieNameHasNoColon()
    ensures CookieName == [115, 101, 115, 115, 105, 111, 110]
    ensures Colon !in CookieName
  {
  }

  /**
    * Round trip: what `encrypt` issues under a name without `:`, `decrypt` accepts
    * under the same key and name and gives back the same user id.
    */
  lemma RoundTrip(
    userId: Uuid.UUID, secret: Bytes, name: Bytes, aead: Gcm.Aead, entropy: Bytes,
    parse: Bytes -> Option<Uuid.UUID>)
    requires Gcm.Correct(aead) && Uuid.ParseInverts(parse)
    requires Gcm.ValidKeySize(secret) && |entropy| >= Gcm.NonceSize
    requires Colon !in name
    ensures Encrypt(userId, secret, name, aead, entropy).Ok?
    ensures Decrypt(Encrypt(userId, secret, name, aead, entropy).value, secret, name, aead, parse) == Ok(userId)
  {
    var token := Encrypt(userId, secret, name, aead, entropy).value;
    OpenedIssued(userId, secret, name, aead, entropy);
    var claim := Claim(name, userId);
    assert claim[..|name|] == name;
    assert claim[|name| + 1..] == Uuid.String(userId);
  }

  /** What is opened from an issued token is exactly the sealed claim. */
  lemma OpenedIssued(userId: Uuid.UUID, secret: Bytes, name: Bytes, aead: Gcm.Aead, entropy: Bytes)
    requires Gcm.Correct(aead)
    requires Gcm.ValidKeySize(secret) && |entropy| >= Gcm.NonceSize
    ensures Encrypt(userId, secret, name, aead, entropy).Ok?
    ensures Opened(Encrypt(userId, secret, name, aead, entropy).value, secret, aead) == Some(Claim(name, userId))
  {
    var nonce := entropy[..Gcm.NonceSize];
    var v := nonce + aead.seal(secret, nonce, Claim(name, userId));
    assert v[..Gcm.NonceSize] == nonce;
    assert v[Gcm.NonceSize..] == aead.seal(secret, nonce, Claim(name, userId));
  }

  /** The session cookie round trip, for the name the application uses. */
  lemma SessionRoundTrip(
    userId: Uuid.UUID, secret: Bytes, aead: Gcm.Aead, entropy: Bytes, parse: Bytes -> Option<Uuid.UUID>)
    requires Gcm.Correct(aead) && Uuid.ParseInverts(parse)
    requires Gcm.ValidKeySize(secret) && |entropy| >= Gcm.NonceSize
    ensures Encrypt(userId, secret, CookieName, aead, entropy).Ok?
    ensures Decrypt(Encrypt(userId, secret, CookieName, aead, entropy).value, secret, CookieName, aead, parse)
      == Ok(userId)
  {
    CookieNameHasNoColon();
    RoundTrip(userId, secret, CookieName, aead, entropy, parse);
  }

  /**
    * A name containing `:` can never be read back: its claim splits inside the name,
    * so `decrypt` refuses every token `encrypt` issues for it.
    */
  lemma NameWithColonNeverDecrypts(
    userId: Uuid.UUID, secret: Bytes, name: Bytes, aead: Gcm.Aead, entropy: Bytes,
    parse: Bytes -> Option<Uuid.UUID>)
    requires Gcm.Correct(aead)
    requires Gcm.ValidKeySize(secret) && |entropy| >= Gcm.NonceSize
    requires Colon in name
    ensures Encrypt(userId, secret, name, aead, entropy).Ok?
    ensures Decrypt(Encrypt(userId, secret, name, aead, entropy).value, secret, name, aead, parse)
      == Err(ErrInvalidValue)
  {
    OpenedIssued(userId, secret, name, aead, entropy);
  }

  /**
    * The substitution guard: a token issued for one cookie name is refused under any
    * other name, even with the right key.
    */
  lemma OtherNameRejected(
    userId: Uuid.UUID, secret: Bytes, issuedFor: Bytes, expected: Bytes, aead: Gcm.Aead,
    entropy: Bytes, parse: Bytes -> Option<Uuid.UUID>)
    requires Gcm.Correct(aead)
    requires Gcm.ValidKeySize(secret) && |entropy| >= Gcm.NonceSize
    requires Colon !in issuedFor && expected != issuedFor
    ensures Encrypt(userId, secret, issuedFor, aead, entropy).Ok?
    ensures Decrypt(Encrypt(userId, secret, issuedFor, aead, entropy).value, secret, expected, aead, parse)
      == Err(ErrInvalidValue)
  {
    OpenedIssued(userId, secret, issuedFor, aead, entropy);
    var claim := Claim(issuedFor, userId);
    CutAccepted(claim, issuedFor, Uuid.String(userId), expected, parse);
  }

  /**
    * Any authenticated plaintext whose label before the first `:` is not the expected
    * name is refused, whatever follows it.
    */
  lemma ForeignLabelRejected(
    token: Bytes, secret: Bytes, expected: Bytes, prefix: Bytes, rest: Bytes,
    aead: Gcm.Aead, parse: Bytes -> Option<Uuid.UUID>)
    requires Opened(token, secret, aead) == Some(prefix + [Colon] + rest)
    requires Colon !in prefix && prefix != expected
    ensures Decrypt(token, secret, expected, aead, parse).Err?
  {
    CutAccepted(prefix + [Colon] + rest, prefix, rest, expected, parse);
  }

  /**
    * The session token is 96 characters: 72 bytes (12 of nonce, 44 of claim, 16 of tag)
    * in base64url.
    */
  lemma SessionTokenLength(userId: Uuid.UUID, secret: Bytes, aead: Gcm.Aead, entropy: Bytes)
    requires Gcm.AddsTag(aead)
    requires Gcm.ValidKeySize(secret) && |entropy| >= Gcm.NonceSize
    ensures Encrypt(userId, secret, CookieName, aead, entropy).Ok?
    ensures |Encrypt(userId, secret, CookieName, aead, entropy).value| == 96
  {
    var nonce := entropy[..Gcm.NonceSize];
    var sealed := aead.seal(secret, nonce, Claim(CookieName, userId));
    assert |sealed| == 44 + Gcm.Overhead;
    EncryptEncodes(userId, secret, CookieName, aead, entropy);
    assert |Base64Url.Encode(nonce + sealed)| == 4 * ((72 + 2) / 3);
  }

  /** A token, when issued, is the base64url encoding of the nonce and the sealed claim. */
  lemma EncryptEncodes(userId: Uuid.UUID, secret: Bytes, name: Bytes, aead: Gcm.Aead, entropy: Bytes)
    requires Gcm.ValidKeySize(secret) && |entropy| >= Gcm.NonceSize
    ensures var nonce := entropy[..Gcm.NonceSize];
      Encrypt(userId, secret, name, aead, entropy)
        == Ok(Base64Url.Encode(nonce + aead.seal(secret, nonce, Claim(name, userId))))
  {
  }
}
