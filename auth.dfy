/**
 * Google login (`AuthService`): reconciling a Google profile with the user store
 * (`validateOAuthUser`) and building the login response around a signed token (`login`).
 */
module Auth {
  import opened Common
  import opened Users

  /** The Google profile the OAuth strategy hands over: `id`, `emails[*].value`, `name`, `photos[*].value`. */
  datatype Profile = Profile(
    id: string,
    emails: seq<string>,
    givenName: string,
    familyName: string,
    photos: seq<string>)

  /**
   * Reading `emails[0].value` or `photos[0].value` of an empty list throws a TypeError; the
   * reconciliation stops there and nothing is written.
   */
  datatype ProfileError = NoEmail | NoPhoto

  /** The three outcomes of reconciliation, and the failure of a profile that cannot be read. */
  datatype Outcome =
    | Created(user: User)
    | Linked(user: User)
    | Kept(user: User)
    | Rejected(error: ProfileError)

  /** The new user a first login creates: email, names and picture from the profile, and its Google id. */
  function NewUserData(p: Profile): (d: UserData)
    requires |p.emails| > 0 && |p.photos| > 0
  {
    UserData(p.emails[0], p.givenName, p.familyName, p.photos[0], Some(p.id))
  }

  /**
   * The decision `validateOAuthUser` takes on the user table `users` (next free id `nextId`):
   * create a user for an unseen email, link the Google id to an email-matched user that has none,
   * or keep an email-matched user that already has one, whichever id it holds.
   */
  function Decide(users: map<Id, User>, nextId: Id, p: Profile): (o: Outcome)
    requires WellFormed(users, nextId)
    ensures o.Rejected? <==>
      |p.emails| == 0 || (|p.photos| == 0 && forall k :: k in users ==> users[k].email != p.emails[0])
    ensures o.Rejected? ==> o.error == (if |p.emails| == 0 then NoEmail else NoPhoto)
    ensures !o.Rejected? ==> o.user.email == p.emails[0]
    ensures o.Created? ==>
      && (forall k :: k in users ==> users[k].email != p.emails[0])
      && o.user.id !in users
      && o.user == User(nextId, p.emails[0], p.givenName, p.familyName, p.photos[0], Some(p.id))
    ensures (o.Linked? || o.Kept?) ==>
      && o.user.id in users
      && (forall k :: k in users && k < o.user.id ==> users[k].email != p.emails[0])
    ensures o.Linked? ==>
      !HasGoogleId(users[o.user.id]) && o.user == users[o.user.id].(googleId := Some(p.id))
    ensures o.Kept? ==> HasGoogleId(o.user) && o.user == users[o.user.id]
  {
    if |p.emails| == 0 then Rejected(NoEmail)
    else
      match FindOne(users, nextId, ByEmail(p.emails[0]))
      case None =>
        if |p.photos| == 0 then Rejected(NoPhoto)
        else Created(FromData(nextId, NewUserData(p)))
      case Some(u) =>
        if !HasGoogleId(u) then Linked(Patch(u, GoogleIdOnly(p.id))) else Kept(u)
  }

  /** The user table after the decision's write: an insert, a link, or no write at all. */
  function Applied(users: map<Id, User>, o: Outcome): map<Id, User> {
    match o
    case Created(u) => users[u.id := u]
    case Linked(u) => users[u.id := u]
    case Kept(_) => users
    case Rejected(_) => users
  }

  /** The next free id after the decision: only a creation consumes one. */
  function NextIdAfter(nextId: Id, o: Outcome): Id {
    if o.Created? then nextId + 1 else nextId
  }

  /** What `validateOAuthUser` resolves to: the user, or the exception the profile raised. */
  function Resolved(o: Outcome): Result<User, ProfileError> {
    if o.Rejected? then Err(o.error) else Ok(o.user)
  }

  /**
   * `validateOAuthUser`: look the user up by the profile's first email, then create, link or keep.
   */
  method ValidateOAuthUser(store: UsersService, p: Profile) returns (r: Result<User, ProfileError>)
    requires store.Valid()
    modifies store
    ensures store.Valid()
    ensures var o := Decide(old(store.users), old(store.nextId), p);
      && r == Resolved(o)
      && store.users == Applied(old(store.users), o)
      && store.nextId == NextIdAfter(old(store.nextId), o)
  {
    if |p.emails| == 0 {
      return Err(NoEmail);
    }
    var email := p.emails[0];
    var user := store.FindOneByEmail(email);
    if user.None? {
      if |p.photos| == 0 {
        return Err(NoPhoto);
      }
      var created := store.CreateUser(NewUserData(p));
      return Ok(created);
    } else if !HasGoogleId(user.value) {
      var updated := store.UpdateUser(user.value.id, GoogleIdOnly(p.id));
      return Ok(updated.value);
    }
    return Ok(user.value);
  }

  /** The ids under which two tables differ. */
  ghost function Changed(before: map<Id, User>, after: map<Id, User>): set<Id> {
    set k | k in before.Keys + after.Keys && (k !in before || k !in after || before[k] != after[k])
  }

  /**
   * Reconciliation writes at most one user, never touches any other, never adds a user when one
   * with the email already exists, and writes nothing when it keeps the user or rejects the profile.
   */
  lemma {:induction false} ReconcileWritesAtMostOnce(users: map<Id, User>, nextId: Id, p: Profile)
    requires WellFormed(users, nextId)
    ensures var o := Decide(users, nextId, p);
      && |Changed(users, Applied(users, o))| <= 1
      && ((o.Kept? || o.Rejected?) ==> Changed(users, Applied(users, o)) == {})
      && (!o.Rejected? ==> forall k :: k in users && k != o.user.id ==> k in Applied(users, o) && Applied(users, o)[k] == users[k])
      && ((|p.emails| > 0 && exists k :: k in users && users[k].email == p.emails[0]) ==>
            Applied(users, o).Keys == users.Keys)
  {
    var o := Decide(users, nextId, p);
    var m := Applied(users, o);
    if o.Kept? || o.Rejected? {
      assert Changed(users, m) == {};
    } else {
      assert Changed(users, m) <= {o.user.id};
      SubsetOfSingleton(Changed(users, m), o.user.id);
    }
  }

  lemma SubsetOfSingleton(s: set<Id>, x: Id)
    requires s <= {x}
    ensures |s| <= 1
  {
    if s != {} {
      assert s == {x};
    }
  }

  /** Reconciliation keeps the table well formed: every user under its own id, every id below the next. */
  lemma {:induction false} ReconcileKeepsTableWellFormed(users: map<Id, User>, nextId: Id, p: Profile)
    requires WellFormed(users, nextId)
    ensures var o := Decide(users, nextId, p);
      WellFormed(Applied(users, o), NextIdAfter(nextId, o))
  {
  }

  /**
   * Repeat logins are idempotent: once a profile (with a non-empty Google id) has been reconciled,
   * reconciling it again keeps the same user and writes nothing. In particular no second user with
   * that email is created, and a user created or linked by the first login is not linked again.
   */
  lemma {:induction false} ReconcileIdempotent(users: map<Id, User>, nextId: Id, p: Profile)
    requires WellFormed(users, nextId)
    requires p.id != ""
    requires !Decide(users, nextId, p).Rejected?
    ensures var o := Decide(users, nextId, p);
      var users', nextId' := Applied(users, o), NextIdAfter(nextId, o);
      WellFormed(users', nextId') && Decide(users', nextId', p) == Kept(o.user)
  {
    var o := Decide(users, nextId, p);
    var users', nextId' := Applied(users, o), NextIdAfter(nextId, o);
    ReconcileKeepsTableWellFormed(users, nextId, p);
    var f := ByEmail(p.emails[0]);
    if o.Created? {
      FindOneIsFirstMatch(users', nextId', f, nextId);
    } else if o.Linked? {
      FindOneIsFirstMatch(users', nextId', f, o.user.id);
    } else {
      FindOneIsFirstMatch(users', nextId', f, o.user.id);
    }
  }

  /**
   * With an empty Google id the link never sticks (`!""` is true): after a profile created or linked
   * a user, reconciling it again links the same user once more, rewriting the same value, so the table
   * is unchanged but a write is issued. A user kept for its own Google id is kept again.
   */
  lemma {:induction false} ReconcileEmptyGoogleIdRelinks(users: map<Id, User>, nextId: Id, p: Profile)
    requires WellFormed(users, nextId)
    requires p.id == ""
    requires !Decide(users, nextId, p).Rejected?
    ensures var o := Decide(users, nextId, p);
      var users', nextId' := Applied(users, o), NextIdAfter(nextId, o);
      && WellFormed(users', nextId')
      && (!o.Kept? ==> Decide(users', nextId', p) == Linked(o.user))
      && (o.Kept? ==> Decide(users', nextId', p) == Kept(o.user))
      && Applied(users', Decide(users', nextId', p)) == users'
  {
    var o := Decide(users, nextId, p);
    var users', nextId' := Applied(users, o), NextIdAfter(nextId, o);
    ReconcileKeepsTableWellFormed(users, nextId, p);
    var f := ByEmail(p.emails[0]);
    if o.Created? {
      FindOneIsFirstMatch(users', nextId', f, nextId);
    } else {
      FindOneIsFirstMatch(users', nextId', f, o.user.id);
    }
  }

  /** No two stored users share an email. */
  ghost predicate UniqueEmails(users: map<Id, User>) {
    forall j, k :: j in users && k in users && users[j].email == users[k].email ==> j == k
  }

  /** Reconciliation never creates a second user with an email already on file. */
  lemma {:induction false} ReconcileKeepsEmailsUnique(users: map<Id, User>, nextId: Id, p: Profile)
    requires WellFormed(users, nextId) && UniqueEmails(users)
    ensures UniqueEmails(Applied(users, Decide(users, nextId, p)))
  {
    var o := Decide(users, nextId, p);
    var m := Applied(users, o);
    if o.Created? || o.Linked? {
      forall j, k | j in m && k in m && m[j].email == m[k].email
        ensures j == k
      {
        if j != o.user.id && k != o.user.id {
          assert m[j] == users[j] && m[k] == users[k];
        }
      }
    }
  }

  /** The claims the session token is signed over: `{ email, sub }`. */
  datatype Payload = Payload(email: string, sub: Id)

  /** The user as the login response shows it: no id and no Google id. */
  datatype PublicUser = PublicUser(email: string, firstName: string, lastName: string, picture: string)

  /** `{ access_token, user }`. */
  datatype LoginResponse = LoginResponse(accessToken: string, user: PublicUser)

  /** `login`: sign `{ email, sub: id }` with the opaque signer `sign` and project the user to its public fields. */
  function Login(u: User, sign: Payload -> string): (r: LoginResponse)
    ensures r.accessToken == sign(Payload(r.user.email, u.id))
    ensures r.user.email == u.email && r.user.firstName == u.firstName
    ensures r.user.lastName == u.lastName && r.user.picture == u.picture
  {
    LoginResponse(sign(Payload(u.email, u.id)), PublicUser(u.email, u.firstName, u.lastName, u.picture))
  }

  /** The login response does not reveal the Google id: users that differ only in it log in identically. */
  lemma LoginHidesGoogleId(u: User, g: Option<string>, sign: Payload -> string)
    ensures Login(u.(googleId := g), sign) == Login(u, sign)
  {
  }

  /**
   * After a successful reconciliation, logging in signs the profile's email together with the id
   * under which the resolved user is now stored, and the response shows that user's public fields.
   */
  lemma {:induction false} LoginAfterReconcile(users: map<Id, User>, nextId: Id, p: Profile, sign: Payload -> string)
    requires WellFormed(users, nextId)
    requires !Decide(users, nextId, p).Rejected?
    ensures var o := Decide(users, nextId, p);
      var r := Login(o.user, sign);
      && o.user.id in Applied(users, o) && Applied(users, o)[o.user.id] == o.user
      && r.accessToken == sign(Payload(p.emails[0], o.user.id))
      && r.user == PublicUser(p.emails[0], o.user.firstName, o.user.lastName, o.user.picture)
  {
  }

  /**
   * A first login of `{ id: "g1", emails: ["a@x.com"], name: "A" "B", photos: ["pic"] }` on an empty
   * store creates user 0 from the profile, and its token is signed over `{ email: "a@x.com", sub: 0 }`.
   */
  lemma FirstLoginOnEmptyStore(sign: Payload -> string)
    ensures var p := Profile("g1", ["a@x.com"], "A", "B", ["pic"]);
      var o := Decide(map[], 0, p);
      && o == Created(User(0, "a@x.com", "A", "B", "pic", Some("g1")))
      && Applied(map[], o) == map[0 := o.user]
      && Login(o.user, sign) == LoginResponse(sign(Payload("a@x.com", 0)), PublicUser("a@x.com", "A", "B", "pic"))
  {
  }
}
