/**
 * UserService: registering and creating accounts, editing and deleting them,
 * and checking a login. The password encoder is a parameter: encode turns a
 * raw password into the stored form, matches compares a raw password with a
 * stored one.
 */
module UserService {
  import opened Wrappers
  import opened Tables
  import opened UserRole
  import opened Entities
  import opened Store
  import NotificationService

  const EmailInUse: string := "Email already in use"
  /** The start of the message MySQL reports when a save would duplicate a unique column. */
  const DuplicateEntryPrefix: string := "Duplicate entry '"
  /** The start of the message of the exception a single-result query raises on several rows. */
  const NonUniquePrefix: string := "query did not return a unique result: "

  /** Whether some user has the given email: findByEmail(email).isPresent(). */
  predicate EmailTaken(s: State, email: string)
  {
    exists k :: k in s.users && s.users[k].email == email
  }

  /** The database after a new user u is saved with the next id. */
  function WithUser(s: State, u: User): State
  {
    s.(users := s.users[s.nextId := u], nextId := s.nextId + 1)
  }

  /**
   * createUser: refuses an email that is already in use; otherwise saves a
   * user with the given name, email and role and the encoded password.
   */
  function CreateUserStep(s: State, email: string, name: string, password: string, role: Role,
                          encode: string -> string): (o: Step<Keyed<User>>)
    ensures EmailTaken(s, email) ==> o.result.FailsWith(Conflict, EmailInUse) && o.state == s
    ensures !EmailTaken(s, email) ==>
      var u := User(email, role, name, encode(password));
      && o.result == Ok(Keyed(s.nextId, u))
      && o.state == WithUser(s, u)
  {
    if EmailTaken(s, email) then Fail(s, Conflict, EmailInUse)
    else
      var u := User(email, role, name, encode(password));
      Step(Ok(Keyed(s.nextId, u)), WithUser(s, u))
  }

  /** registerUser: createUser with the role forced to STUDENT. */
  function RegisterUserStep(s: State, email: string, name: string, password: string, role: Role,
                            encode: string -> string): (o: Step<Keyed<User>>)
    ensures EmailTaken(s, email) ==> o.result.FailsWith(Conflict, EmailInUse) && o.state == s
    ensures o.result.Ok? <==> !EmailTaken(s, email)
    ensures o.result.Ok? ==>
      var u := o.result.value;
      && u.val == User(email, STUDENT, name, encode(password))
      && o.state == WithUser(s, u.val)
  {
    if EmailTaken(s, email) then Fail(s, Conflict, EmailInUse)
    else
      var u := User(email, STUDENT, name, encode(password));
      Step(Ok(Keyed(s.nextId, u)), WithUser(s, u))
  }

  /** Whatever role the registration request carries, the account is created as a STUDENT. */
  lemma RegisterIgnoresRole(s: State, email: string, name: string, password: string, role: Role, encode: string -> string)
    ensures RegisterUserStep(s, email, name, password, role, encode) == CreateUserStep(s, email, name, password, STUDENT, encode)
  {
  }

  /** Saving a user with a fresh email keeps the database consistent, in particular one user per email. */
  lemma WithUserConsistent(s: State, u: User)
    requires Consistent(s) && !EmailTaken(s, u.email)
    ensures Consistent(WithUser(s, u))
  {
    var r := WithUser(s, u);
    assert KeysBelow(r) by {
      assert Below(r.users, r.nextId);
    }
    assert Linked(r);
    assert EmailsUnique(r.users) by {
      forall a, b | a in r.users && b in r.users && a != b
        ensures r.users[a].email != r.users[b].email
      {
        if a == s.nextId {
          assert b in s.users;
        } else if b == s.nextId {
          assert a in s.users;
        }
      }
    }
  }

  /** createUser keeps the database consistent. */
  lemma CreateUserConsistent(s: State, email: string, name: string, password: string, role: Role, encode: string -> string)
    requires Consistent(s)
    ensures Consistent(CreateUserStep(s, email, name, password, role, encode).state)
  {
    if !EmailTaken(s, email) {
      WithUserConsistent(s, User(email, role, name, encode(password)));
    }
  }

  /** Registering the same email twice is refused the second time. */
  lemma RegisterTwiceConflicts(s: State, email: string, name: string, password: string, role: Role, encode: string -> string)
    ensures var r := RegisterUserStep(s, email, name, password, role, encode).state;
      RegisterUserStep(r, email, name, password, role, encode).result.FailsWith(Conflict, EmailInUse)
  {
    var o := RegisterUserStep(s, email, name, password, role, encode);
    if o.result.Ok? {
      assert o.state.users[s.nextId].email == email;
    }
  }

  /** Whether a user other than id has the given email. */
  predicate EmailTakenByOther(s: State, id: Id, email: string)
  {
    exists k :: k in s.users && k != id && s.users[k].email == email
  }

  /**
   * The user after an update: name and email replaced; the password replaced by
   * the encoded new one only when one is given and it is not empty; the role kept.
   */
  function Updated(u: User, name: string, email: string, password: Option<string>, encode: string -> string): (r: User)
    ensures r.name == name && r.email == email && r.role == u.role
    ensures password.Some? && password.value != "" ==> r.password == encode(password.value)
    ensures password.None? || password.value == "" ==> r.password == u.password
  {
    var kept := u.(name := name, email := email);
    if password.Some? && password.value != "" then kept.(password := encode(password.value)) else kept
  }

  /**
   * updateUser: fails "User not found" for a missing id; otherwise saves the
   * updated user. The email column is unique, so the save is refused when
   * another user already has the new email.
   */
  function UpdateUserStep(s: State, id: Id, name: string, email: string, password: Option<string>,
                          encode: string -> string): (o: Step<Keyed<User>>)
    ensures id !in s.users ==> o.result.FailsWith(NotFound, NotificationService.UserNotFound)
    ensures id in s.users && EmailTakenByOther(s, id, email) ==>
      o.result.FailsWith(Conflict, DuplicateEntryPrefix + email + "'")
    ensures o.result.Ok? <==> id in s.users && !EmailTakenByOther(s, id, email)
    ensures o.result.Err? ==> o.state == s
    ensures o.result.Ok? ==>
      var u := Updated(s.users[id], name, email, password, encode);
      o.result.value == Keyed(id, u) && o.state == s.(users := s.users[id := u])
  {
    if id !in s.users then Fail(s, NotFound, NotificationService.UserNotFound)
    else if EmailTakenByOther(s, id, email) then Fail(s, Conflict, DuplicateEntryPrefix + email + "'")
    else
      var u := Updated(s.users[id], name, email, password, encode);
      Step(Ok(Keyed(id, u)), s.(users := s.users[id := u]))
  }

  /** updateUser keeps the database consistent: one user per email, and no reference changes. */
  lemma UpdateUserConsistent(s: State, id: Id, name: string, email: string, password: Option<string>, encode: string -> string)
    requires Consistent(s)
    ensures Consistent(UpdateUserStep(s, id, name, email, password, encode).state)
  {
    var o := UpdateUserStep(s, id, name, email, password, encode);
    if o.result.Ok? {
      var r := o.state;
      assert KeysBelow(r) by {
        assert Below(r.users, r.nextId);
      }
      assert Linked(r);
      assert EmailsUnique(r.users) by {
        forall a, b | a in r.users && b in r.users && a != b
          ensures r.users[a].email != r.users[b].email
        {
          if a == id {
            assert b in s.users && b != id;
          } else if b == id {
            assert a in s.users && a != id;
          }
        }
      }
    }
  }

  /** The database after user id is deleted, with ON DELETE CASCADE applied. */
  function WithoutUser(s: State, id: Id): State
  {
    Cascade(s.(users := s.users - {id}))
  }

  /**
   * deleteUser: fails "User not found" for a missing id; otherwise deletes the
   * user, cascading to the courses they teach and to every row that refers to
   * them or to those courses, unless a foreign key without a cascade refuses it.
   */
  function DeleteUserStep(s: State, id: Id): (o: Step<()>)
    ensures id !in s.users ==> o.result.FailsWith(NotFound, NotificationService.UserNotFound)
    ensures id in s.users && Refused(s, WithoutUser(s, id)) ==> o.result.FailsWith(Conflict, ForeignKeyFails)
    ensures o.result.Ok? <==> id in s.users && !Refused(s, WithoutUser(s, id))
    ensures o.result.Err? ==> o.state == s
    ensures o.result.Ok? ==> o.state == WithoutUser(s, id)
  {
    if id !in s.users then Fail(s, NotFound, NotificationService.UserNotFound)
    else
      var r := WithoutUser(s, id);
      if Refused(s, r) then Fail(s, Conflict, ForeignKeyFails)
      else Step(Ok(()), r)
  }

  /**
   * After a successful deletion no course, enrollment, submission, quiz result,
   * attendance row or notification refers to the user.
   */
  lemma DeleteUserLeavesNoTrace(s: State, id: Id)
    requires DeleteUserStep(s, id).result.Ok?
    ensures var r := DeleteUserStep(s, id).state;
      && id !in r.users
      && (forall k :: k in r.courses ==> r.courses[k].instructor != id)
      && (forall k :: k in r.enrollments ==> r.enrollments[k].student != id)
      && (forall k :: k in r.studentAssignments ==> r.studentAssignments[k].student != id)
      && (forall k :: k in r.studentQuizzes ==> r.studentQuizzes[k].student != id)
      && (forall k :: k in r.studentLessons ==> r.studentLessons[k].student != id)
      && (forall k :: k in r.notifications ==> r.notifications[k].user != id)
  {
  }

  /** A student one of whose submissions has files cannot be deleted. */
  lemma DeleteUserWithFilesRefused(s: State, id: Id, k: Id)
    requires id in s.users
    requires k in s.studentAssignments && s.studentAssignments[k].student == id && |s.studentAssignments[k].fileNames| > 0
    ensures DeleteUserStep(s, id).result.FailsWith(Conflict, ForeignKeyFails)
  {
    assert k !in WithoutUser(s, id).studentAssignments;
    assert FilesLost(s, WithoutUser(s, id));
  }

  /** An instructor one of whose courses has materials cannot be deleted. */
  lemma DeleteUserWithMaterialsRefused(s: State, id: Id, c: Id)
    requires id in s.users
    requires c in s.courses && s.courses[c].instructor == id && |s.courses[c].materials| > 0
    ensures DeleteUserStep(s, id).result.FailsWith(Conflict, ForeignKeyFails)
  {
    assert c !in WithoutUser(s, id).courses;
    assert MaterialsLost(s, WithoutUser(s, id));
  }

  /** deleteUser keeps the database consistent. */
  lemma DeleteUserConsistent(s: State, id: Id)
    requires Consistent(s)
    ensures Consistent(DeleteUserStep(s, id).state)
  {
    if DeleteUserStep(s, id).result.Ok? {
      var t := s.(users := s.users - {id});
      assert KeysBelow(t) by {
        BelowSubset(s.users, t.users, s.nextId);
      }
      CascadeConsistent(t);
    }
  }

  /** findByName: the users with the given name, in id order. */
  function UsersNamed(s: State, name: string): (r: seq<Keyed<User>>)
    ensures forall i :: 0 <= i < |r| ==> r[i].id in s.users && s.users[r[i].id] == r[i].val && r[i].val.name == name
    ensures forall k :: k in s.users && s.users[k].name == name ==> Keyed(k, s.users[k]) in r
  {
    Select(s.users, (u: User) => u.name == name)
  }

  /**
   * loginUser: empty when no user has that name or when the password does not
   * match the stored one; the user otherwise. Names are not unique: with two
   * or more users of that name the single-result query fails.
   */
  function LoginUser(s: State, name: string, password: string, matches: (string, string) -> bool): (r: Result<Option<Keyed<User>>>)
    ensures |UsersNamed(s, name)| > 1 ==> r.FailsWith(Internal, NonUniquePrefix + IdText(|UsersNamed(s, name)|))
    ensures r.Ok? && r.value.Some? <==>
      |UsersNamed(s, name)| == 1 && matches(password, UsersNamed(s, name)[0].val.password)
    ensures r.Ok? && r.value.Some? ==>
      var u := r.value.value; u.id in s.users && s.users[u.id] == u.val && u.val.name == name
    ensures |UsersNamed(s, name)| == 0 ==> r == Ok(None)
    ensures |UsersNamed(s, name)| == 1 && !matches(password, UsersNamed(s, name)[0].val.password) ==> r == Ok(None)
  {
    var named := UsersNamed(s, name);
    if |named| > 1 then Err(Failure(Internal, NonUniquePrefix + IdText(|named|)))
    else if |named| == 0 then Ok(None)
    else if !matches(password, named[0].val.password) then Ok(None)
    else Ok(Some(named[0]))
  }

  /**
   * A registered user whose name no one else has can log in with the password
   * they registered, given an encoder whose matches accepts what encode produced.
   */
  lemma RegisterThenLogin(s: State, email: string, name: string, password: string, role: Role,
                          encode: string -> string, matches: (string, string) -> bool)
    requires !EmailTaken(s, email) && s.nextId !in s.users
    requires forall k :: k in s.users ==> s.users[k].name != name
    requires matches(password, encode(password))
    ensures var o := RegisterUserStep(s, email, name, password, role, encode);
      LoginUser(o.state, name, password, matches) == Ok(Some(o.result.value))
  {
    var o := RegisterUserStep(s, email, name, password, role, encode);
    var named := UsersNamed(o.state, name);
    assert Keyed(s.nextId, o.state.users[s.nextId]) in named;
    forall i | 0 <= i < |named|
      ensures named[i].id == s.nextId
    {
      assert named[i].id in o.state.users;
    }
    if |named| > 1 {
      assert named[0].id == named[1].id;
      IncreasingDistinct(named);
    }
  }

  class UserService {
    const db: Database
    /** The password encoder. */
    const encode: string -> string
    const matches: (string, string) -> bool

    constructor (db: Database, encode: string -> string, matches: (string, string) -> bool)
      ensures this.db == db && this.encode == encode && this.matches == matches
    {
      this.db := db;
      this.encode := encode;
      this.matches := matches;
    }

    method RegisterUser(email: string, name: string, password: string, role: Role) returns (r: Result<Keyed<User>>)
      requires db.Valid()
      modifies db
      ensures db.Valid()
      ensures var o := RegisterUserStep(old(db.tables), email, name, password, role, encode);
        r == o.result && db.tables == o.state
    {
      RegisterIgnoresRole(db.tables, email, name, password, role, encode);
      CreateUserConsistent(db.tables, email, name, password, STUDENT, encode);
      if EmailTaken(db.tables, email) {
        return Err(Failure(Conflict, EmailInUse));
      }
      var user := User(email, STUDENT, name, encode(password));
      var id := db.NewId();
      db.tables := db.tables.(users := db.tables.users[id := user]);
      r := Ok(Keyed(id, user));
    }

    method CreateUser(email: string, name: string, password: string, role: Role) returns (r: Result<Keyed<User>>)
      requires db.Valid()
      modifies db
      ensures db.Valid()
      ensures var o := CreateUserStep(old(db.tables), email, name, password, role, encode);
        r == o.result && db.tables == o.state
    {
      CreateUserConsistent(db.tables, email, name, password, role, encode);
      if EmailTaken(db.tables, email) {
        return Err(Failure(Conflict, EmailInUse));
      }
      var user := User(email, role, name, encode(password));
      var id := db.NewId();
      db.tables := db.tables.(users := db.tables.users[id := user]);
      r := Ok(Keyed(id, user));
    }

    method UpdateUser(id: Id, name: string, email: string, password: Option<string>) returns (r: Result<Keyed<User>>)
      requires db.Valid()
      modifies db
      ensures db.Valid()
      ensures var o := UpdateUserStep(old(db.tables), id, name, email, password, encode);
        r == o.result && db.tables == o.state
    {
      UpdateUserConsistent(db.tables, id, name, email, password, encode);
      if id !in db.tables.users {
        return Err(Failure(NotFound, NotificationService.UserNotFound));
      }
      var user := db.tables.users[id].(name := name, email := email);
      if password.Some? && password.value != "" {
        user := user.(password := encode(password.value));
      }
      if EmailTakenByOther(db.tables, id, email) {
        return Err(Failure(Conflict, DuplicateEntryPrefix + email + "'"));
      }
      db.tables := db.tables.(users := db.tables.users[id := user]);
      r := Ok(Keyed(id, user));
    }

    method DeleteUser(id: Id) returns (r: Result<()>)
      requires db.Valid()
      modifies db
      ensures db.Valid()
      ensures var o := DeleteUserStep(old(db.tables), id);
        r == o.result && db.tables == o.state
    {
      DeleteUserConsistent(db.tables, id);
      if id !in db.tables.users {
        return Err(Failure(NotFound, NotificationService.UserNotFound));
      }
      var remaining := WithoutUser(db.tables, id);
      if Refused(db.tables, remaining) {
        return Err(Failure(Conflict, ForeignKeyFails));
      }
      db.tables := remaining;
      r := Ok(());
    }
  }
}
