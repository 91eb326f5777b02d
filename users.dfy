/**
 * The user store (`UsersService`): a collection of user documents keyed by id, with lookups by
 * email, by Google id and by id, insertion, and partial update.
 */
module Users {
  import opened Common

  /** A stored user document. `googleId` stays absent until a Google login links it. */
  datatype User = User(
    id: Id,
    email: string,
    firstName: string,
    lastName: string,
    picture: string,
    googleId: Option<string>)

  /** The fields a new user is created with (everything but the id, which the store assigns). */
  datatype UserData = UserData(
    email: string,
    firstName: string,
    lastName: string,
    picture: string,
    googleId: Option<string>)

  /** A partial update: only the fields that are present are written. */
  datatype UserPatch = UserPatch(
    email: Option<string>,
    firstName: Option<string>,
    lastName: Option<string>,
    picture: Option<string>,
    googleId: Option<string>)

  /** A query filter: `{ email }` or `{ googleId }`. */
  datatype UserFilter = ByEmail(email: string) | ByGoogleId(googleId: string)

  /** `!user.googleId` is false exactly when the field holds a non-empty string (an empty string is falsy). */
  predicate HasGoogleId(u: User) {
    u.googleId.Some? && u.googleId.value != ""
  }

  predicate Matches(u: User, f: UserFilter) {
    match f
    case ByEmail(e) => u.email == e
    case ByGoogleId(g) => u.googleId == Some(g)
  }

  /** Every stored user sits under its own id, and every id is below the next id to be handed out. */
  ghost predicate WellFormed(users: map<Id, User>, nextId: Id) {
    forall k :: k in users ==> k < nextId && users[k].id == k
  }

  /** The user a `UserData` describes, once the store has given it the id `id`. */
  function FromData(id: Id, data: UserData): (u: User)
    ensures u.id == id && u.email == data.email && u.googleId == data.googleId
    ensures u.firstName == data.firstName && u.lastName == data.lastName && u.picture == data.picture
  {
    User(id, data.email, data.firstName, data.lastName, data.picture, data.googleId)
  }

  /** The user after a partial update: present fields replace, absent fields keep their value. */
  function Patch(u: User, p: UserPatch): (r: User)
    ensures r.id == u.id
  {
    User(
      u.id,
      p.email.GetOr(u.email),
      p.firstName.GetOr(u.firstName),
      p.lastName.GetOr(u.lastName),
      p.picture.GetOr(u.picture),
      if p.googleId.Some? then p.googleId else u.googleId)
  }

  /** The patch that sets only the Google id. */
  function GoogleIdOnly(googleId: string): (p: UserPatch)
    ensures forall u :: Patch(u, p) == u.(googleId := Some(googleId))
  {
    UserPatch(None, None, None, None, Some(googleId))
  }

  /**
   * A partial update writes exactly the fields it carries: a present field takes the patch's value,
   * an absent one keeps the stored value, the id never changes, an empty patch changes nothing, and
   * applying a patch twice is applying it once.
   */
  lemma PatchWritesOnlyPresentFields(u: User, p: UserPatch)
    ensures Patch(u, p).id == u.id
    ensures Patch(u, p).email == p.email.GetOr(u.email)
    ensures Patch(u, p).firstName == p.firstName.GetOr(u.firstName)
    ensures Patch(u, p).lastName == p.lastName.GetOr(u.lastName)
    ensures Patch(u, p).picture == p.picture.GetOr(u.picture)
    ensures p.googleId.Some? ==> Patch(u, p).googleId == p.googleId
    ensures p.googleId.None? ==> Patch(u, p).googleId == u.googleId
    ensures p == UserPatch(None, None, None, None, None) ==> Patch(u, p) == u
    ensures Patch(Patch(u, p), p) == Patch(u, p)
  {
  }

  /**
   * The smallest key in [from, bound) whose user matches `f`: the store's natural (insertion)
   * order, which is the order `findOne` returns documents in.
   */
  function FirstMatch(users: map<Id, User>, f: UserFilter, from: Id, bound: Id): (r: Option<Id>)
    decreases bound - from
    ensures r.Some? ==> from <= r.value < bound && r.value in users && Matches(users[r.value], f)
    ensures r.Some? ==> forall k :: from <= k < r.value && k in users ==> !Matches(users[k], f)
    ensures r.None? ==> forall k :: from <= k < bound && k in users ==> !Matches(users[k], f)
  {
    if from >= bound then None
    else if from in users && Matches(users[from], f) then Some(from)
    else FirstMatch(users, f, from + 1, bound)
  }

  /**
   * `findOne(filter)`: the first stored user that matches, or none when no user matches.
   */
  function FindOne(users: map<Id, User>, nextId: Id, f: UserFilter): (r: Option<User>)
    requires WellFormed(users, nextId)
    ensures r.Some? ==> r.value.id in users && users[r.value.id] == r.value && Matches(r.value, f)
    ensures r.Some? ==> forall k :: k in users && k < r.value.id ==> !Matches(users[k], f)
    ensures r.None? <==> forall k :: k in users ==> !Matches(users[k], f)
  {
    match FirstMatch(users, f, 0, nextId)
    case None => None
    case Some(k) => Some(users[k])
  }

  /**
   * `findOne` is determined by which keys match: when `k` is the smallest matching key, the
   * answer is the user stored under `k`.
   */
  lemma {:induction false} FindOneIsFirstMatch(users: map<Id, User>, nextId: Id, f: UserFilter, k: Id)
    requires WellFormed(users, nextId)
    requires k in users && Matches(users[k], f)
    requires forall j :: j in users && j < k ==> !Matches(users[j], f)
    ensures FindOne(users, nextId, f) == Some(users[k])
  {
    var r := FindOne(users, nextId, f);
    assert r.Some?;
  }

  /** The mutable user collection behind `UsersService`. */
  class UsersService {
    var users: map<Id, User>
    var nextId: Id

    ghost predicate Valid()
      reads this
    {
      WellFormed(users, nextId)
    }

    constructor ()
      ensures Valid() && users == map[]
    {
      users := map[];
      nextId := 0;
    }

    /** `findOneByEmail`: a stored user whose email equals `email` exactly, the earliest one; none if there is none. */
    function FindOneByEmail(email: string): (r: Option<User>)
      reads this
      requires Valid()
      ensures r.Some? ==> r.value.email == email && r.value.id in users && users[r.value.id] == r.value
      ensures r.Some? ==> forall k :: k in users && k < r.value.id ==> users[k].email != email
      ensures r.None? <==> forall k :: k in users ==> users[k].email != email
    {
      FindOne(users, nextId, ByEmail(email))
    }

    /** `findOneByGoogleId`: a stored user whose Google id equals `googleId`, the earliest one; none if there is none. */
    function FindOneByGoogleId(googleId: string): (r: Option<User>)
      reads this
      requires Valid()
      ensures r.Some? ==> r.value.googleId == Some(googleId) && r.value.id in users && users[r.value.id] == r.value
      ensures r.Some? ==> forall k :: k in users && k < r.value.id ==> users[k].googleId != Some(googleId)
      ensures r.None? <==> forall k :: k in users ==> users[k].googleId != Some(googleId)
    {
      FindOne(users, nextId, ByGoogleId(googleId))
    }

    /** `findOneById`: the user stored under `id`, which carries that id; none if no user has it. */
    function FindOneById(id: Id): (r: Option<User>)
      reads this
      requires Valid()
      ensures r.Some? <==> id in users
      ensures r.Some? ==> r.value.id == id && users[id] == r.value
    {
      if id in users then Some(users[id]) else None
    }

    /** `createUser`: stores one new user under a fresh id; every user already stored is unchanged. */
    method CreateUser(data: UserData) returns (u: User)
      requires Valid()
      modifies this
      ensures Valid()
      ensures u == FromData(old(nextId), data) && u.id !in old(users)
      ensures users == old(users)[u.id := u] && nextId == old(nextId) + 1
    {
      u := FromData(nextId, data);
      users := users[nextId := u];
      nextId := nextId + 1;
    }

    /**
     * `updateUser` (`findByIdAndUpdate` with `new: true`): writes the present fields of `patch` onto
     * the user under `id` and returns the updated user; a missing id returns none and writes nothing.
     */
    method UpdateUser(id: Id, patch: UserPatch) returns (r: Option<User>)
      requires Valid()
      modifies this
      ensures Valid() && nextId == old(nextId)
      ensures r.Some? <==> id in old(users)
      ensures r.Some? ==> r.value == Patch(old(users)[id], patch) && users == old(users)[id := r.value]
      ensures r.None? ==> users == old(users)
    {
      if id in users {
        var u := Patch(users[id], patch);
        users := users[id := u];
        r := Some(u);
      } else {
        r := None;
      }
    }
  }
}
