/**
 * The user service's records: a stored user is a manager or a developer, told apart by the
 * entity subclass it is saved as.
 */
module UserModel {
  import opened Wrappers
  import opened Tables

  /** The two `User` subclasses, `Manager` and `Developer`. */
  datatype Role = Manager | Developer {

    /** `getRole()`: the role name each subclass reports. */
    function Name(): (s: string)
      ensures this == Manager ==> s == "MANAGER"
      ensures this == Developer ==> s == "DEVELOPER"
    {
      match this
      case Manager => "MANAGER"
      case Developer => "DEVELOPER"
    }
  }

  /** The stored `User`; the names are null when registration left them unset. */
  datatype User = User(
    id: Option<int>, username: string, email: string, password: string,
    firstName: Option<string>, lastName: Option<string>, role: Role)

  /** `RegisterRequest`: the role is a free string and may be missing. */
  datatype RegisterRequest = RegisterRequest(
    username: string, email: string, password: string,
    firstName: Option<string>, lastName: Option<string>, role: Option<string>)

  /** The subclass `register` instantiates: a manager for exactly "MANAGER", a developer for any other role. */
  function RoleFor(role: string): (r: Role)
    ensures r == Manager <==> role == "MANAGER"
    ensures r.Name() == "MANAGER" <==> role == "MANAGER"
  {
    if role == "MANAGER" then Manager else Developer
  }

  /** Some stored user has this username (`findByUsername(...).isPresent()`). */
  ghost predicate HasUsername(t: Table<User>, username: string)
  {
    exists k | k in t.rows :: t.rows[k].username == username
  }

  /** Some stored user has this email (`findByEmail(...).isPresent()`). */
  ghost predicate HasEmail(t: Table<User>, email: string)
  {
    exists k | k in t.rows :: t.rows[k].email == email
  }

  /** No two stored users share a username, and none share an email. */
  ghost predicate UniqueLogins(t: Table<User>)
  {
    && (forall k1, k2 | k1 in t.rows && k2 in t.rows && t.rows[k1].username == t.rows[k2].username :: k1 == k2)
    && (forall k1, k2 | k1 in t.rows && k2 in t.rows && t.rows[k1].email == t.rows[k2].email :: k1 == k2)
  }

  /** Every stored user carries the key it is stored under as its id. */
  ghost predicate IdsAreKeys(t: Table<User>)
  {
    forall k | k in t.rows :: t.rows[k].id == Some(k)
  }
}

/**
 * The user service's statistics producer (`UserStatisticsServiceImpl`): the user count, and one
 * user as the analytics service receives it.
 */
module UserStatistics {
  import opened Wrappers
  import opened Tables
  import opened UserModel
  import opened StatisticsMessages

  /** The gRPC `UserResponse`: null names travel as empty strings, and every user is active. */
  datatype UserMessage = UserMessage(
    id: int, username: string, email: string, firstName: string, lastName: string, active: bool)

  /** `getUserCount`: every stored user, all of them counted as active since users carry no enabled flag. */
  function GetUserCount(users: Table<User>): (r: UserCountResponse)
    requires users.Valid()
    ensures r.totalUsers == |users.rows|
    ensures r.activeUsers == r.totalUsers
  {
    var total := users.Count();
    UserCountResponse(total, total)
  }

  /** `getUserById`: the stored user's fields, or a not-found error and no message. */
  function GetUserById(users: Table<User>, id: int): (r: Result<UserMessage>)
    requires IdsAreKeys(users)
    ensures r.Failure? <==> id !in users.rows
    ensures r.Failure? ==> r.error == NotFound
    ensures r.Success? ==>
      var u := users.rows[id];
      && r.value.id == id && r.value.username == u.username && r.value.email == u.email
      && (u.firstName.Some? ==> r.value.firstName == u.firstName.value)
      && (u.firstName.None? ==> r.value.firstName == "")
      && (u.lastName.Some? ==> r.value.lastName == u.lastName.value)
      && (u.lastName.None? ==> r.value.lastName == "")
      && r.value.active
  {
    match users.FindById(id)
    case None => Failure(NotFound)
    case Some(u) => Success(UserMessage(u.id.value, u.username, u.email, u.firstName.GetOr(""), u.lastName.GetOr(""), true))
  }

  /** Once a user is stored under a fresh key, the message for that key carries its fields. */
  lemma SavedUserFound(users: Table<User>, id: int, u: User)
    requires IdsAreKeys(users) && users.Valid() && u.id == Some(id)
    ensures IdsAreKeys(users.Save(id, u))
    ensures GetUserById(users.Save(id, u), id)
      == Success(UserMessage(id, u.username, u.email, u.firstName.GetOr(""), u.lastName.GetOr(""), true))
  {
  }
}

/** The user service (`UserServiceImpl`): registration, login, lookups and deletion. */
module Users {
  import opened Wrappers
  import opened Tables
  import opened UserModel

  /** A user with this username (`findByUsername`). */
  function ByUsername(username: string): (p: User -> bool)
    ensures forall u :: p(u) <==> u.username == username
  {
    (u: User) => u.username == username
  }

  /** A user with this email (`findByEmail`). */
  function ByEmail(email: string): (p: User -> bool)
    ensures forall u :: p(u) <==> u.email == email
  {
    (u: User) => u.email == email
  }

  /** A user whose id is among `ids` (`findAllById`). */
  function IdIn(ids: seq<int>): (p: User -> bool)
    ensures forall u :: p(u) <==> u.id.Some? && u.id.value in ids
  {
    (u: User) => u.id.Some? && u.id.value in ids
  }

  /** The user a successful `register` saves under `newId`: the request's fields, the password encoded. */
  function NewUser(request: RegisterRequest, role: string, encoded: string, newId: int): (u: User)
    ensures u.id == Some(newId) && u.username == request.username && u.email == request.email
    ensures u.password == encoded && u.firstName == request.firstName && u.lastName == request.lastName
    ensures u.role == Manager <==> role == "MANAGER"
  {
    User(Some(newId), request.username, request.email, encoded, request.firstName, request.lastName, RoleFor(role))
  }

  class UserService {
    const users: Repository<User>

    ghost predicate Valid()
      reads this, users
    {
      users.table.Valid() && IdsAreKeys(users.table) && UniqueLogins(users.table)
    }

    constructor (userRepository: Repository<User>)
      requires userRepository.table.Valid() && IdsAreKeys(userRepository.table)
      requires UniqueLogins(userRepository.table)
      ensures users == userRepository && Valid()
    {
      users := userRepository;
    }

    /** `findByUsername`: the one stored user with that username, if any. */
    function FindByUsername(username: string): (r: Option<User>)
      reads this, users
      requires Valid()
      ensures r.Some? <==> HasUsername(users.table, username)
      ensures r.Some? ==>
        r.value.username == username && r.value.id.Some?
        && r.value.id.value in users.table.rows && users.table.rows[r.value.id.value] == r.value
    {
      var found := users.table.Select(ByUsername(username));
      if found == [] then
        None
      else
        users.table.SelectedStored(ByUsername(username), 0);
        Some(found[0])
    }

    /**
     * `register`: a taken username fails first, then a taken email, then a missing role; otherwise
     * exactly one user is added, with the password encoded and the role chosen by `RoleFor`.
     */
    method Register(request: RegisterRequest, encode: string -> string, newId: int) returns (r: Result<User>)
      requires Valid() && newId !in users.table.rows
      modifies users
      ensures Valid()
      ensures HasUsername(old(users.table), request.username) ==>
        r == Failure(UsernameTaken) && users.table == old(users.table)
      ensures !HasUsername(old(users.table), request.username) && HasEmail(old(users.table), request.email) ==>
        r == Failure(EmailTaken) && users.table == old(users.table)
      ensures (!HasUsername(old(users.table), request.username) && !HasEmail(old(users.table), request.email)
               && request.role.None?) ==> r == Failure(NullRole) && users.table == old(users.table)
      ensures r.Success? <==>
        !HasUsername(old(users.table), request.username) && !HasEmail(old(users.table), request.email)
        && request.role.Some?
      ensures r.Success? ==>
        r.value == NewUser(request, request.role.value, encode(request.password), newId)
        && users.table == old(users.table).Save(newId, r.value)
        && FindByUsername(request.username) == Some(r.value)
    {
      if FindByUsername(request.username).Some? {
        return Failure(UsernameTaken);
      }
      if FindByEmail(request.email).Some? {
        return Failure(EmailTaken);
      }
      if request.role.None? {
        return Failure(NullRole);
      }
      var user := NewUser(request, request.role.value, encode(request.password), newId);
      ghost var before := users.table;
      users.Save(newId, user);
      NewLoginsStayUnique(before, newId, user);
      ghost var found := FindByUsername(request.username);
      assert found.value.id.value == newId;
      return Success(user);
    }

    /** `findByEmail`: the one stored user with that email, if any. */
    function FindByEmail(email: string): (r: Option<User>)
      reads this, users
      requires Valid()
      ensures r.Some? <==> HasEmail(users.table, email)
      ensures r.Some? ==> r.value.email == email && r.value in users.table.rows.Values
    {
      var found := users.table.Select(ByEmail(email));
      if found == [] then
        None
      else
        users.table.SelectedStored(ByEmail(email), 0);
        Some(found[0])
    }

    /**
     * `login`: an unknown username fails as not found, a password the encoder does not match fails
     * as invalid credentials, and otherwise the token issued for the username is returned.
     */
    function Login(username: string, password: string, matches: (string, string) -> bool, token: string -> string)
      : (r: Result<string>)
      reads this, users
      requires Valid()
      ensures r == Failure(NotFound) <==> !HasUsername(users.table, username)
      ensures r.Success? <==>
        exists k | k in users.table.rows :: users.table.rows[k].username == username && matches(password, users.table.rows[k].password)
      ensures r.Success? ==> r.value == token(username)
      ensures r.Failure? ==> r.error == NotFound || r.error == InvalidCredentials
    {
      var found := FindByUsername(username);
      if found.None? then
        Failure(NotFound)
      else
        var u := found.value;
        OnlyOwner(users.table, u);
        if matches(password, u.password) then Success(token(u.username)) else Failure(InvalidCredentials)
    }

    /** `getById`: the stored user, or not-found. */
    function GetById(id: int): (r: Result<User>)
      reads this, users
      requires Valid()
      ensures r.Failure? <==> id !in users.table.rows
      ensures r.Failure? ==> r.error == NotFound
      ensures r.Success? ==> r.value == users.table.rows[id] && r.value.id == Some(id)
    {
      match users.table.FindById(id)
      case None => Failure(NotFound)
      case Some(u) => Success(u)
    }

    /** `getByUsername`: the stored user with that username, or not-found. */
    function GetByUsername(username: string): (r: Result<User>)
      reads this, users
      requires Valid()
      ensures r.Failure? <==> !HasUsername(users.table, username)
      ensures r.Failure? ==> r.error == NotFound
      ensures r.Success? ==> r.value.username == username && r.value.id.Some? && GetById(r.value.id.value) == r
    {
      match FindByUsername(username)
      case None => Failure(NotFound)
      case Some(u) => Success(u)
    }

    /** `getAllUsers`: every stored user once. */
    function GetAllUsers(): (r: seq<User>)
      reads this, users
      requires Valid()
      ensures |r| == |users.table.rows|
      ensures forall k | k in users.table.rows :: users.table.rows[k] in r
      ensures forall i | 0 <= i < |r| :: r[i].id.Some? && GetById(r[i].id.value) == Success(r[i])
    {
      var all := users.table.FindAll();
      forall i | 0 <= i < |all| ensures all[i].id.Some? && GetById(all[i].id.value) == Success(all[i]) {
        users.table.ListedStored(i);
      }
      all
    }

    /** `getUsersByIds`: the stored users whose id is listed; ids nobody is stored under are skipped. */
    function GetUsersByIds(ids: seq<int>): (r: seq<User>)
      reads this, users
      requires Valid()
      ensures forall i | 0 <= i < |r| :: r[i].id.Some? && r[i].id.value in ids && GetById(r[i].id.value) == Success(r[i])
      ensures forall i | 0 <= i < |ids| && ids[i] in users.table.rows :: users.table.rows[ids[i]] in r
      ensures |r| == |users.table.Matching(IdIn(ids))|
    {
      var found := users.table.Select(IdIn(ids));
      users.table.CountIsMatching(IdIn(ids));
      assert forall i | 0 <= i < |found| :: found[i].id.Some? && GetById(found[i].id.value) == Success(found[i]) by {
        forall i | 0 <= i < |found| ensures found[i].id.Some? && GetById(found[i].id.value) == Success(found[i]) {
          users.table.SelectedStored(IdIn(ids), i);
        }
      }
      assert forall i | 0 <= i < |ids| && ids[i] in users.table.rows :: users.table.rows[ids[i]] in found by {
        forall i | 0 <= i < |ids| && ids[i] in users.table.rows ensures users.table.rows[ids[i]] in found {
          StoredIdListed(users.table, ids, i);
        }
      }
      found
    }

    /** `deleteUser`: an unknown id fails with the store unchanged; otherwise exactly that user is removed. */
    method DeleteUser(id: int) returns (r: Outcome)
      requires Valid()
      modifies users
      ensures Valid()
      ensures id !in old(users.table.rows) ==> r == Failed(NotFound) && users.table == old(users.table)
      ensures id in old(users.table.rows) ==>
        r == Done && users.table == old(users.table).Delete(id) && GetById(id) == Failure(NotFound)
    {
      if id !in users.table.rows {
        return Failed(NotFound);
      }
      users.DeleteById(id);
      return Done;
    }
  }

  /** Saving a user whose username and email are both new keeps logins unique and ids equal to keys. */
  lemma NewLoginsStayUnique(t: Table<User>, newId: int, u: User)
    requires t.Valid() && IdsAreKeys(t) && UniqueLogins(t) && newId !in t.rows && u.id == Some(newId)
    requires !HasUsername(t, u.username) && !HasEmail(t, u.email)
    ensures IdsAreKeys(t.Save(newId, u)) && UniqueLogins(t.Save(newId, u))
  {
  }

  /** With unique usernames, a stored user is the only one stored with its username. */
  lemma OnlyOwner(t: Table<User>, u: User)
    requires UniqueLogins(t) && u.id.Some? && u.id.value in t.rows && t.rows[u.id.value] == u
    ensures forall k | k in t.rows && t.rows[k].username == u.username :: t.rows[k] == u
  {
    var own := u.id.value;
    forall k | k in t.rows && t.rows[k].username == u.username ensures t.rows[k] == u {
      assert t.rows[k].username == t.rows[own].username;
    }
  }

  /** The user stored under a listed id satisfies `IdIn`. */
  lemma StoredIdListed(t: Table<User>, ids: seq<int>, i: int)
    requires IdsAreKeys(t) && 0 <= i < |ids| && ids[i] in t.rows
    ensures IdIn(ids)(t.rows[ids[i]])
  {
    var k := ids[i];
    assert t.rows[k].id == Some(k);
  }
}
