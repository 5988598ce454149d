/**
 * Account registration, login and lookup over the user store. bcrypt is
 * supplied by the caller: `Hasher` is one call of the salted hash at the
 * default cost, `Checker` the comparison of a stored hash with a password.
 */
module UserService {
  import opened Errors
  import opened Model
  import opened UserStore
  import opened JwtService

  type Hasher = string -> Result<string>
  type Checker = (string, string) -> bool

  /** The lookup reported a miss, the only outcome on which registration proceeds. */
  predicate Misses(f: Found)
  {
    f.Missing? && Is(f.err, RecordNotFound)
  }

  /**
   * Register `username`. An existing name gives `UserAlreadyExists`, a failed
   * lookup or insert `StoreOperationFailed`, a failed hash `PasswordHashFailed`
   * (each wrapping its cause); on success exactly one user, holding the hash of
   * the password, is added.
   */
  method Register(store: Store, username: string, password: string, hash: Hasher,
                  findFault: Option<Error>, createFault: Option<Error>) returns (r: Result<User>)
    requires store.Valid()
    modifies store
    ensures store.Valid()
    ensures r.Ok? <==>
      Misses(old(store.FindByUsername(username, findFault))) && hash(password).Ok?
      && createFault.None? && UserNamed(old(store.users), username).None?
    ensures r.Ok? ==>
      && r.value == User(old(store.nextID), username, hash(password).value)
      && store.users == old(store.users) + [r.value]
    ensures r.Err? ==> store.users == old(store.users)
    ensures findFault.None? && UserNamed(old(store.users), username).Some? ==>
      r == Err(Sentinel(UserAlreadyExists))
    ensures findFault.Some? && !Is(findFault.value, RecordNotFound) ==>
      r.Err? && forall k :: Is(r.error, k) <==> k == StoreOperationFailed || Is(findFault.value, k)
    ensures Misses(old(store.FindByUsername(username, findFault))) && hash(password).Err? ==>
      r.Err? && forall k :: Is(r.error, k) <==> k == PasswordHashFailed || Is(hash(password).error, k)
    ensures Misses(old(store.FindByUsername(username, findFault))) && hash(password).Ok? && createFault.Some? ==>
      r.Err? && forall k :: Is(r.error, k) <==> k == StoreOperationFailed || Is(createFault.value, k)
  {
    var found := store.FindByUsername(username, findFault);
    if !Misses(found) {
      match found {
        case Found(_) =>
          r := Err(Sentinel(UserAlreadyExists));
        case Missing(e) =>
          r := Err(Tag(StoreOperationFailed, "failed to check username existence", e));
      }
      return;
    }
    var hashed := hash(password);
    if hashed.Err? {
      r := Err(Tag(PasswordHashFailed, "", hashed.error));
      return;
    }
    var err, saved := store.CreateUser(User(0, username, hashed.value), createFault);
    if err.Some? {
      r := Err(Tag(StoreOperationFailed, "failed to create user", err.value));
      return;
    }
    r := Ok(saved);
  }

  /**
   * Log in: look the user up, compare the password, issue a token. A failed
   * lookup of any kind returns no user, so it is caught by the nil-user test
   * and reported as `InvalidCredentials`; the store-failure branch after it is
   * never reached and has no counterpart here. The caller sees bare
   * `InvalidCredentials` exactly when the lookup or the password check failed;
   * the only other failure is a signing failure.
   */
  function Login(store: Store, username: string, password: string, findFault: Option<Error>,
                 matches: Checker, s: Config, now: int, codec: Codec, mac: Mac): (r: Result<string>)
    reads store
    ensures r == Err(Sentinel(InvalidCredentials)) <==>
      || findFault.Some? || UserNamed(store.users, username).None?
      || !matches(UserNamed(store.users, username).value.passwordHash, password)
    ensures r.Err? && r.error != Sentinel(InvalidCredentials) ==>
      forall k :: Is(r.error, k) <==> k == TokenGenerationFailed
  {
    match store.FindByUsername(username, findFault)
    case Missing(_) => Err(Sentinel(InvalidCredentials))
    case Found(user) =>
      if !matches(user.passwordHash, password) then Err(Sentinel(InvalidCredentials))
      else match GenerateToken(s, user, now, codec, mac)
        case Err(e) => Err(Wrap("failed to generate token", e))
        case Ok(token) => Ok(token)
  }

  /** The user named `username`; any failed lookup is `UserNotFound`. */
  function FindUserByUsername(store: Store, username: string, fault: Option<Error>): (r: Result<User>)
    reads store
    ensures r.Ok? ==> r.value in store.users && r.value.username == username
  {
    match store.FindByUsername(username, fault)
    case Missing(_) => Err(Sentinel(UserNotFound))
    case Found(user) => Ok(user)
  }

  /** An unknown username and a wrong password give the same error. */
  lemma LoginHidesWhichCheckFailed(store: Store, username: string, password: string,
                                   matches: Checker, s: Config, now: int, codec: Codec, mac: Mac)
    requires UserNamed(store.users, username).None?
      || !matches(UserNamed(store.users, username).value.passwordHash, password)
    ensures Login(store, username, password, None, matches, s, now, codec, mac) == Err(Sentinel(InvalidCredentials))
  {
  }

  /** A database failure during the lookup is reported as bad credentials, never as a store failure. */
  lemma LoginStoreFailure(store: Store, username: string, password: string, fault: Error,
                          matches: Checker, s: Config, now: int, codec: Codec, mac: Mac)
    ensures Login(store, username, password, Some(fault), matches, s, now, codec, mac) == Err(Sentinel(InvalidCredentials))
    ensures !Is(Login(store, username, password, Some(fault), matches, s, now, codec, mac).error, StoreOperationFailed)
  {
  }

  /**
   * Login succeeds exactly when the user exists, the password matches its
   * stored hash and signing works; the token is then the one issued for that user.
   */
  lemma LoginSucceedsIff(store: Store, username: string, password: string, findFault: Option<Error>,
                         matches: Checker, s: Config, now: int, codec: Codec, mac: Mac)
    ensures Login(store, username, password, findFault, matches, s, now, codec, mac).Ok? <==>
      && findFault.None? && UserNamed(store.users, username).Some?
      && matches(UserNamed(store.users, username).value.passwordHash, password)
      && GenerateToken(s, UserNamed(store.users, username).value, now, codec, mac).Ok?
    ensures Login(store, username, password, findFault, matches, s, now, codec, mac).Ok? ==>
      Login(store, username, password, findFault, matches, s, now, codec, mac)
        == GenerateToken(s, UserNamed(store.users, username).value, now, codec, mac)
  {
  }

  /**
   * A user registered with a hash the checker accepts can log in with the same
   * password, and the token validates to that user's identity until it expires.
   */
  lemma RegisteredUserCanLogin(store: Store, i: nat, password: string, hash: Hasher, matches: Checker,
                               s: Config, issued: int, now: int, codec: Codec, mac: Mac)
    requires store.Valid() && i < |store.users|
    requires hash(password).Ok? && store.users[i].passwordHash == hash(password).value
    requires forall p :: hash(p).Ok? ==> matches(hash(p).value, p)
    requires GenerateToken(s, store.users[i], issued, codec, mac).Ok?
    requires Sound(codec) && now < issued + s.duration
    ensures var token := Login(store, store.users[i].username, password, None, matches, s, issued, codec, mac);
      && token.Ok?
      && ValidateToken(s, token.value, now, codec, mac) == Ok(UserClaims(store.users[i].id, store.users[i].username))
  {
    UserNamedUnique(store.users, i);
    GenerateValidateRoundTrip(s, store.users[i], issued, now, codec, mac);
  }

  /** Every failed lookup, whatever its cause, is `UserNotFound`; a hit returns the stored user. */
  lemma FindUserOutcome(store: Store, username: string, fault: Option<Error>)
    ensures FindUserByUsername(store, username, fault).Err? ==>
      FindUserByUsername(store, username, fault) == Err(Sentinel(UserNotFound))
    ensures fault.None? ==>
      (FindUserByUsername(store, username, fault).Ok? <==> UserNamed(store.users, username).Some?)
  {
  }
}
