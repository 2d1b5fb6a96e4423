/**
 * InMemoryStorage of internal/storage/storage.go: a map from user name to
 * user, with registration (AddUser) and log-in (GetUser). The password hash
 * is an abstract pair of functions: `hash` may fail (bcrypt's
 * GenerateFromPassword returning an error), and `verify` accepts any
 * password whose hash it is given.
 */
module UserStore {
  import opened Results

  type Digest = seq<bv8>

  datatype User = User(id: string, name: string, password: Digest)

  /** The three error values of the source, and the hashing primitive's failure. */
  datatype UserError = ErrUserAlreadyExists | ErrUserNotFound | ErrInvalidPassword | ErrHash

  /** The hashing assumption: verify accepts what hash produced for the same password. */
  ghost predicate SoundHasher(hash: string -> Option<Digest>, verify: (Digest, string) -> bool) {
    forall pw :: hash(pw).Some? ==> verify(hash(pw).value, pw)
  }

  class InMemoryStorage {
    var users: map<string, User>
    const hash: string -> Option<Digest>
    const verify: (Digest, string) -> bool

    /** Each user is stored under its own name, so names are unique. */
    ghost predicate Valid()
      reads this
    {
      && SoundHasher(hash, verify)
      && forall name | name in users :: users[name].name == name
    }

    constructor (hash: string -> Option<Digest>, verify: (Digest, string) -> bool)
      requires SoundHasher(hash, verify)
      ensures Valid() && users == map[]
      ensures this.hash == hash && this.verify == verify
    {
      this.hash := hash;
      this.verify := verify;
      users := map[];
    }

    /** Log-in: an unknown name and a wrong password are told apart. */
    method GetUser(name: string, password: string) returns (r: Result<User, UserError>)
      ensures name !in users ==> r == Err(ErrUserNotFound)
      ensures name in users && !verify(users[name].password, password) ==> r == Err(ErrInvalidPassword)
      ensures name in users && verify(users[name].password, password) ==> r == Ok(users[name])
    {
      if name !in users {
        return Err(ErrUserNotFound);
      }
      var user := users[name];
      if !verify(user.password, password) {
        return Err(ErrInvalidPassword);
      }
      r := Ok(user);
    }

    /**
     * Registration: a taken name is refused; otherwise the user is stored
     * with the password's hash (never the password) under the fresh id
     * (uuid.NewString() in the source).
     */
    method AddUser(name: string, password: string, id: string) returns (r: Result<User, UserError>)
      requires Valid()
      modifies this
      ensures Valid()
      ensures name in old(users) ==> r == Err(ErrUserAlreadyExists) && users == old(users)
      ensures name !in old(users) && hash(password).None? ==> r == Err(ErrHash) && users == old(users)
      ensures name !in old(users) && hash(password).Some? ==>
        && r == Ok(User(id, name, hash(password).value))
        && users == old(users)[name := r.value]
    {
      if name in users {
        return Err(ErrUserAlreadyExists);
      }
      var hashed := hash(password);
      if hashed.None? {
        return Err(ErrHash);
      }
      var u := User(id, name, hashed.value);
      users := users[name := u];
      r := Ok(u);
    }
  }

  /**
   * Registering a new name and then logging in with the same password
   * succeeds and returns the user just added, unless hashing failed.
   */
  method AddThenGetUser(s: InMemoryStorage, name: string, password: string, id: string)
    returns (added: Result<User, UserError>, fetched: Result<User, UserError>)
    requires s.Valid() && name !in s.users
    modifies s
    ensures s.Valid()
    ensures added.Ok? <==> s.hash(password).Some?
    ensures added.Ok? ==> added.value.name == name && fetched == added
  {
    added := s.AddUser(name, password, id);
    fetched := s.GetUser(name, password);
  }
}
