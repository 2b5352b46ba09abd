/**
 * Sign-up and log-in: field checks, e-mail uniqueness and password hashing.
 * Hashing and comparison with bcrypt are the parameters `hash` and
 * `compare`; issuing the session token and its cookie is not modelled.
 */
module AuthController {
  import opened Wrappers
  import opened Mongo
  import opened Strings
  import opened Models

  const AllFieldsRequired := "All fields are required"
  const PasswordTooShort := "Password must be at least 6 characters long"
  const UserExists := "User Already Exists"
  const CredentialsRequired := "Email and password are required"
  const InvalidCredentials := "Invalid email or password"

  /** Shortest password `signup` accepts, counted on the untrimmed string. */
  const MinPasswordLength := 6

  /** `User.findOne({ email })` finds a document: the e-mail is one of the registered ones. */
  predicate EmailTaken(users: map<Id, User>, email: string): (b: bool)
    ensures b <==> email in (set id | id in users :: users[id].email)
  {
    exists id :: id in users && users[id].email == email
  }

  /**
   * The stored hash `login` compares against: `user?.password || ""`, the
   * stored hash when there is one and the empty string otherwise.
   */
  function StoredHash(u: User): (r: Digest)
    ensures u.password.Some? ==> r == u.password.value
    ensures u.password.None? ==> r == Digest("")
  {
    u.password.GetOr(Digest(""))
  }

  /** A user as `signup` creates it: empty lists and no pictures. */
  function NewUser(userName: string, email: string, digest: Digest): (u: User)
    ensures u.userName == userName && u.email == email
    ensures u.password == Some(digest)
    ensures u.followers == [] && u.following == [] && u.likedPosts == []
  {
    User(userName, email, Some(digest), [], [], [], None, None)
  }

  /**
   * The validations of `signup` in their order, as the message of the 400
   * reply the first failing one sends, or None when the request passes:
   * every field present and not blank, a password of at least six
   * characters before trimming, an e-mail nobody has registered.
   */
  function SignupError(users: map<Id, User>, userName: Option<string>, email: Option<string>, password: Option<string>)
    : (r: Option<string>)
    ensures Blank(userName) || Blank(email) || Blank(password) ==> r == Some(AllFieldsRequired)
    ensures !Blank(userName) && !Blank(email) && !Blank(password) && |password.value| < MinPasswordLength ==>
              r == Some(PasswordTooShort)
    ensures !Blank(userName) && !Blank(email) && !Blank(password) && |password.value| >= MinPasswordLength
            && EmailTaken(users, email.value) ==>
              r == Some(UserExists)
    ensures r.None? <==>
              && !Blank(userName) && !Blank(email) && !Blank(password)
              && |password.value| >= MinPasswordLength && !EmailTaken(users, email.value)
  {
    if Blank(userName) || Blank(email) || Blank(password) then Some(AllFieldsRequired)
    else if |password.value| < MinPasswordLength then Some(PasswordTooShort)
    else if EmailTaken(users, email.value) then Some(UserExists)
    else None
  }

  /**
   * `signup`: 400 with the message of the first failed validation and no
   * change; otherwise one new user storing the hash of the password, and 201
   * with that user without its password.
   */
  method Signup(db: Database, userName: Option<string>, email: Option<string>, password: Option<string>,
                hash: string -> Digest)
    returns (res: Reply<User>)
    requires db.Valid()
    modifies db
    ensures db.Valid()
    ensures res.Ok? || res.Created? ==> res.body.password.None?
    ensures var error := SignupError(old(db.users), userName, email, password);
            && (error.Some? ==> res == BadRequest(error.value) && unchanged(db))
            && (error.None? ==>
                  var id := old(db.nextId);
                  && id !in old(db.users)
                  && db.users == old(db.users)[id := NewUser(userName.value, email.value, hash(password.value))]
                  && db.posts == old(db.posts) && db.notifications == old(db.notifications)
                  && db.nextId == id + 1
                  && res == Created(View(db.users[id])))
  {
    var error := SignupError(db.users, userName, email, password);
    if error.Some? {
      return BadRequest(error.value);
    }
    var hashed := hash(password.value);
    var id := db.NewId();
    var user := NewUser(userName.value, email.value, hashed);
    db.users := db.users[id := user];
    res := Created(View(user));
  }

  /**
   * `login`: 400 when a field is missing or blank; otherwise the same 400
   * for an unknown e-mail and for a wrong password, and 200 with the user,
   * without its password, only when a user with that e-mail has a hash that
   * matches. When several users share the e-mail the store returns one of
   * them.
   */
  method Login(db: Database, email: Option<string>, password: Option<string>, compare: (string, Digest) -> bool)
    returns (res: Reply<User>)
    ensures res.Ok? || res == BadRequest(CredentialsRequired) || res == BadRequest(InvalidCredentials)
    ensures Blank(email) || Blank(password) <==> res == BadRequest(CredentialsRequired)
    ensures !Blank(email) && !Blank(password) && !res.Ok? ==> res == BadRequest(InvalidCredentials)
    ensures !Blank(email) && !Blank(password) && !EmailTaken(db.users, email.value) ==>
              res == BadRequest(InvalidCredentials)
    ensures res.Ok? ==>
              && !Blank(email) && !Blank(password)
              && exists id :: id in db.users && db.users[id].email == email.value
                           && compare(password.value, StoredHash(db.users[id]))
                           && res.body == View(db.users[id])
    ensures !Blank(email) && !Blank(password) ==>
              forall id :: id in db.users && db.users[id].email == email.value
                           && (forall other :: other in db.users && db.users[other].email == email.value ==> other == id)
                           ==> (res.Ok? <==> compare(password.value, StoredHash(db.users[id])))
    ensures res.Ok? ==> res.body.password.None?
  {
    if Blank(email) || Blank(password) {
      return BadRequest(CredentialsRequired);
    }
    var found: Option<Id> := None;
    if EmailTaken(db.users, email.value) {
      var id :| id in db.users && db.users[id].email == email.value;
      found := Some(id);
    }
    var stored := if found.Some? then StoredHash(db.users[found.value]) else Digest("");
    var isPasswordMatch := compare(password.value, stored);
    if found.None? || !isPasswordMatch {
      return BadRequest(InvalidCredentials);
    }
    var user := db.users[found.value];
    res := Ok(View(user));
  }
}
