/**
 * The users service over the users table. The table is a map from generated id
 * to row; the password hash is a deterministic function given at construction.
 */
module Users {
  import opened Wrappers

  /** The colour a new user gets from the column default. */
  const DefaultColor := "#6B7280"

  const EmailTaken := "Un utilisateur avec cet email existe d\U{E9}j\U{E0}"
  const UsernameTaken := "Un utilisateur avec ce nom d'utilisateur existe d\U{E9}j\U{E0}"
  const UsernameExists := "Ce nom d'utilisateur existe d\U{E9}j\U{E0}"

  datatype User = User(id: int, username: string, email: string, password: string, displayColor: string)

  /** A field of the `updateData` of `updateProfile`: left out, sent as `null`, or a string. */
  datatype UpdateField = Absent | Null | Value(s: string)

  /** The `updateData` of `updateProfile`: either field may be left out or be `null`. */
  datatype ProfileUpdate = ProfileUpdate(username: UpdateField, displayColor: UpdateField)

  datatype Failure =
    | Conflict(message: string)
      /** The table's unique index on `username` refused the write. */
    | UniqueViolation
      /** A `null` written into one of the table's NOT NULL columns. */
    | NotNullViolation

  /** `username ? ... : ...`: only a non-empty string is truthy. */
  predicate Truthy(s: string) {
    s != ""
  }

  /** The update sets a column to `null`. */
  predicate HasNull(update: ProfileUpdate) {
    update.username.Null? || update.displayColor.Null?
  }

  function Written(f: UpdateField, current: string): string {
    if f.Value? then f.s else current
  }

  /** The row with `u.id` after an update without `null`: the supplied fields replaced, the others kept. */
  function Applied(u: User, update: ProfileUpdate): (r: User)
    requires !HasNull(update)
    ensures r.id == u.id && r.email == u.email && r.password == u.password
    ensures update.username.Value? ==> r.username == update.username.s
    ensures update.username.Absent? ==> r.username == u.username
    ensures update.displayColor.Value? ==> r.displayColor == update.displayColor.s
    ensures update.displayColor.Absent? ==> r.displayColor == u.displayColor
  {
    u.(username := Written(update.username, u.username), displayColor := Written(update.displayColor, u.displayColor))
  }

  class UsersService {
    var users: map<int, User>
    var nextId: int
    /** `bcrypt.hash`, with the salt left out. */
    const hash: string -> string

    /** Rows are stored under their own id, below the next generated id; emails and usernames are unique. */
    ghost predicate Valid()
      reads this
    {
      && nextId > 0
      && (forall id :: id in users ==> users[id].id == id && 0 < id < nextId)
      && (forall a, b :: a in users && b in users && users[a].email == users[b].email ==> a == b)
      && (forall a, b :: a in users && b in users && users[a].username == users[b].username ==> a == b)
    }

    constructor(hash: string -> string)
      ensures Valid() && users == map[] && this.hash == hash
    {
      users := map[];
      nextId := 1;
      this.hash := hash;
    }

    predicate EmailInUse(email: string)
      reads this
    {
      exists id :: id in users && users[id].email == email
    }

    predicate UsernameInUse(username: string)
      reads this
    {
      exists id :: id in users && users[id].username == username
    }

    /** A row other than `id` already holds `username`. */
    predicate UsernameHeldByOther(id: int, username: string)
      reads this
    {
      exists other :: other in users && other != id && users[other].username == username
    }

    /**
     * `create`: a taken email is reported first, then a taken username; otherwise
     * a new row with the hashed password and the default colour.
     */
    method Create(username: string, email: string, password: string) returns (r: Result<User, Failure>)
      requires Valid()
      modifies this
      ensures Valid()
      ensures old(EmailInUse(email)) ==> r == Err(Conflict(EmailTaken)) && users == old(users)
      ensures !old(EmailInUse(email)) && old(UsernameInUse(username)) ==>
        r == Err(Conflict(UsernameTaken)) && users == old(users)
      ensures !old(EmailInUse(email)) && !old(UsernameInUse(username)) ==>
        && r == Ok(User(old(nextId), username, email, hash(password), DefaultColor))
        && old(nextId) !in old(users)
        && users == old(users)[old(nextId) := r.value]
      ensures r.Ok? ==> r.value.id in users && ValidatePassword(password, users[r.value.id].password)
    {
      if exists id | id in users :: users[id].email == email {
        return Err(Conflict(EmailTaken));
      }
      if exists id | id in users :: users[id].username == username {
        return Err(Conflict(UsernameTaken));
      }
      var user := User(nextId, username, email, hash(password), DefaultColor);
      users := users[nextId := user];
      nextId := nextId + 1;
      r := Ok(user);
    }

    /** `findByEmail`: the one row with that email, or null. */
    function FindByEmail(email: string): (r: Option<User>)
      requires Valid()
      reads this
      ensures r.Some? <==> EmailInUse(email)
      ensures r.Some? ==> r.value.id in users && users[r.value.id] == r.value && r.value.email == email
    {
      if exists id | id in users :: users[id].email == email then
        var id :| id in users && users[id].email == email;
        Some(users[id])
      else None
    }

    /** `findOne({ where: { username } })`: the one row with that username, or null. */
    function FindByUsername(username: string): (r: Option<User>)
      requires Valid()
      reads this
      ensures r.Some? <==> UsernameInUse(username)
      ensures r.Some? ==> r.value.id in users && users[r.value.id] == r.value && r.value.username == username
    {
      if exists id | id in users :: users[id].username == username then
        var id :| id in users && users[id].username == username;
        Some(users[id])
      else None
    }

    /** `findById`: the row with that id, or null. */
    function FindById(id: int): (r: Option<User>)
      reads this
      ensures r.Some? <==> id in users
      ensures r.Some? ==> r.value == users[id]
    {
      if id in users then Some(users[id]) else None
    }

    /** `validatePassword`: the password hashes to the stored hash. */
    function ValidatePassword(password: string, hashedPassword: string): (ok: bool)
      reads this
      ensures ok <==> hash(password) == hashedPassword
    {
      hash(password) == hashedPassword
    }

    /**
     * `updateProfile`: a truthy username held by another id is a conflict (one's
     * own is not); otherwise the supplied fields of that id are written and the
     * row is read back, null when there is no such id. The write of an existing
     * row fails on a `null` field (NOT NULL) and on a username held by another
     * row (UNIQUE); an update with no field only touches `updatedAt`.
     */
    method UpdateProfile(id: int, update: ProfileUpdate) returns (r: Result<Option<User>, Failure>)
      requires Valid()
      modifies this
      ensures Valid() && nextId == old(nextId)
      ensures r.Err? ==> users == old(users)
      ensures
        if update.username.Value? && Truthy(update.username.s)
           && old(UsernameHeldByOther(id, update.username.s)) then
          r == Err(Conflict(UsernameExists))
        else if id in old(users) && HasNull(update) then
          r == Err(NotNullViolation)
        else if id in old(users) && old(UsernameHeldByOther(id, Applied(users[id], update).username)) then
          r == Err(UniqueViolation)
        else
          r.Ok?
      ensures id in old(users) && update.username == Value(old(users)[id].username) && !update.displayColor.Null? ==> r.Ok?
      ensures update.username.Absent? && update.displayColor.Absent? ==> r == Ok(old(FindById(id))) && users == old(users)
      ensures r.Ok? ==>
        && (id in old(users) ==> !HasNull(update) && users == old(users)[id := Applied(old(users)[id], update)])
        && (id !in old(users) ==> users == old(users))
        && r.value == FindById(id)
    {
      if update.username.Value? && Truthy(update.username.s) {
        var name := update.username.s;
        if UsernameHeldByOther(id, name) {
          return Err(Conflict(UsernameExists));
        }
      }
      if id in users {
        if HasNull(update) {
          return Err(NotNullViolation);
        }
        var updated := Applied(users[id], update);
        if UsernameHeldByOther(id, updated.username) {
          return Err(UniqueViolation);
        }
        users := users[id := updated];
      }
      r := Ok(FindById(id));
    }
  }

  /** `fullUser?.displayColor || null`: the colour of the user, null when absent or empty. */
  function ColorOf(user: Option<User>): (c: Option<string>)
    ensures c.Some? <==> user.Some? && user.value.displayColor != ""
    ensures c.Some? ==> c.value == user.value.displayColor
  {
    if user.Some? && user.value.displayColor != "" then Some(user.value.displayColor) else None
  }
}
