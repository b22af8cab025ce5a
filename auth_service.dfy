/**
  * The credential service (`internal/components/auth/service.go`): one configured user,
  * checked by name and bcrypt hash, looked up by id, and the hex-encoded cookie key.
  *
  * `compare` stands for `bcrypt.CompareHashAndPassword` (true when the password matches
  * the hash) and `parse` for `uuid.Parse`; `uuid.MustParse` panics where `parse` fails.
  */
module AuthService {
  import opened Common
  import Hex
  import Uuid

  /** The configuration fields the service reads. */
  datatype Config = Config(username: Bytes, passwordHash: Bytes, userId: Bytes, secretKey: Bytes)

  /** `auth.User`; the service never fills in `PasswordHash`. */
  datatype User = User(id: Uuid.UUID, username: Bytes, passwordHash: Bytes)

  /**
    * `ErrInvalidCredentials` (one value for both failures), the "user not found" error,
    * and a panic, which the model returns instead of unwinding.
    */
  datatype Error = ErrInvalidCredentials | ErrUserNotFound | Panic(reason: string)

  /** `uuid.MustParse`. */
  function MustParse(s: Bytes, parse: Bytes -> Option<Uuid.UUID>): (r: Result<Uuid.UUID, Error>)
    ensures r.Ok? <==> parse(s).Some?
    ensures r.Ok? ==> r.value == parse(s).value
    ensures r.Err? ==> r.error.Panic?
  {
    match parse(s)
    case Some(id) => Ok(id)
    case None => Err(Panic("uuid: Parse"))
  }

  /** The configured user, as both lookups return it. */
  function ConfiguredUser(cfg: Config, parse: Bytes -> Option<Uuid.UUID>): (r: Result<User, Error>)
    ensures r.Ok? <==> parse(cfg.userId).Some?
    ensures r.Ok? ==> r.value == User(parse(cfg.userId).value, cfg.username, [])
    ensures r.Err? ==> r.error.Panic?
  {
    match MustParse(cfg.userId, parse)
    case Err(e) => Err(e)
    case Ok(id) => Ok(User(id, cfg.username, []))
  }

  /** `ValidateCredentials`: the name first, then the password hash. */
  function ValidateCredentials(
    cfg: Config, username: Bytes, password: Bytes,
    compare: (Bytes, Bytes) -> bool, parse: Bytes -> Option<Uuid.UUID>)
    : (r: Result<User, Error>)
    ensures username != cfg.username ==> r == Err(ErrInvalidCredentials)
    ensures username == cfg.username && !compare(cfg.passwordHash, password) ==> r == Err(ErrInvalidCredentials)
    ensures r.Ok? <==> username == cfg.username && compare(cfg.passwordHash, password) && parse(cfg.userId).Some?
    ensures r.Ok? ==> r.value == User(parse(cfg.userId).value, cfg.username, [])
    ensures r.Err? ==> r.error == ErrInvalidCredentials || r.error.Panic?
  {
    if username != cfg.username then Err(ErrInvalidCredentials)
    else if !compare(cfg.passwordHash, password) then Err(ErrInvalidCredentials)
    else ConfiguredUser(cfg, parse)
  }

  /** `GetUserByID`: the configured user iff `userID.String()` is the configured id. */
  function GetUserByID(cfg: Config, userID: Uuid.UUID, parse: Bytes -> Option<Uuid.UUID>)
    : (r: Result<User, Error>)
    ensures Uuid.String(userID) != cfg.userId ==> r == Err(ErrUserNotFound)
    ensures Uuid.String(userID) == cfg.userId ==> r == ConfiguredUser(cfg, parse)
    ensures r.Ok? <==> Uuid.String(userID) == cfg.userId && parse(cfg.userId).Some?
    ensures r.Ok? ==> r.value == User(parse(cfg.userId).value, cfg.username, [])
    ensures Uuid.ParseInverts(parse) && r.Ok? ==> r.value.id == userID
  {
    if Uuid.String(userID) == cfg.userId then ConfiguredUser(cfg, parse)
    else Err(ErrUserNotFound)
  }

  /** `GetSecretKey`: the hex-decoded key; a panic on bad hex. */
  function GetSecretKey(cfg: Config): (r: Result<Bytes, Error>)
    ensures r.Ok? <==> |cfg.secretKey| % 2 == 0 && Hex.AllDigits(cfg.secretKey)
    ensures r.Ok? ==> |r.value| == |cfg.secretKey| / 2
    ensures r.Err? ==> r.error.Panic?
  {
    match Hex.Decode(cfg.secretKey)
    case Some(key) => Ok(key)
    case None => Err(Panic("Invalid hex secret key"))
  }

  /**
    * An unknown user name and a wrong password for the right user give the same error,
    * and which bcrypt is plugged in makes no difference to a wrong name.
    */
  lemma FailuresIndistinguishable(
    cfg: Config, password: Bytes, other: Bytes, compare: (Bytes, Bytes) -> bool,
    compare': (Bytes, Bytes) -> bool, parse: Bytes -> Option<Uuid.UUID>)
    requires other != cfg.username
    requires !compare(cfg.passwordHash, password)
    ensures ValidateCredentials(cfg, other, password, compare, parse)
      == ValidateCredentials(cfg, cfg.username, password, compare, parse)
      == ValidateCredentials(cfg, other, password, compare', parse)
      == Err(ErrInvalidCredentials)
  {
  }

  /**
    * With a well-formed configured id, the lookup by id finds exactly the configured
    * user, and finds it for one id only.
    */
  lemma GetUserByIDFindsConfigured(cfg: Config, userID: Uuid.UUID, parse: Bytes -> Option<Uuid.UUID>)
    requires Uuid.ParseInverts(parse)
    requires cfg.userId == Uuid.String(userID)
    ensures GetUserByID(cfg, userID, parse) == Ok(User(userID, cfg.username, []))
    ensures forall other: Uuid.UUID | other != userID :: GetUserByID(cfg, other, parse) == Err(ErrUserNotFound)
  {
    forall other: Uuid.UUID | other != userID
      ensures GetUserByID(cfg, other, parse) == Err(ErrUserNotFound)
    {
      if Uuid.String(other) == Uuid.String(userID) {
        Uuid.StringInjective(other, userID);
      }
    }
  }

  /** A user returned by a successful login is found again by its id. */
  lemma ValidatedUserFoundByID(
    cfg: Config, username: Bytes, password: Bytes,
    compare: (Bytes, Bytes) -> bool, parse: Bytes -> Option<Uuid.UUID>, u: Uuid.UUID)
    requires Uuid.ParseInverts(parse)
    requires cfg.userId == Uuid.String(u)
    requires ValidateCredentials(cfg, username, password, compare, parse).Ok?
    ensures GetUserByID(cfg, ValidateCredentials(cfg, username, password, compare, parse).value.id, parse)
      == ValidateCredentials(cfg, username, password, compare, parse)
  {
  }

  /** A key configured as the hex encoding of some bytes is returned as those bytes. */
  lemma GetSecretKeyDecodes(cfg: Config, key: Bytes)
    requires cfg.secretKey == Hex.Encode(key)
    ensures GetSecretKey(cfg) == Ok(key)
  {
    Hex.DecodeEncode(key);
  }
}
