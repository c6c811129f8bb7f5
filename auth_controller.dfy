/** The authentication controller of the backend: registration and login
    over the user table.  Password hashing (`bcrypt.hash`), hash comparison
    (`bcrypt.compare`), token signing (`jwt.sign` of `{ id }`, valid 90 days)
    and the store's id generator are parameters. */
module AuthController {
  import opened Wrappers
  import opened Schema

  /** A request-body field that is present and truthy: `!field` is false. */
  predicate Provided(field: Option<string>) {
    field.Some? && field.value != ""
  }

  datatype RegisteredUser = RegisteredUser(id: Id, email: string, firstName: string, lastName: string)

  datatype RegisterResponse =
    | MissingFields                                      // 400 'Please provide all required fields'
    | EmailInUse                                         // 400 'Email already in use'
    | Registered(token: string, user: RegisteredUser)    // 201

  datatype RegisterOutcome = RegisterOutcome(users: seq<User>, response: RegisterResponse)

  /** What `register` does to the user table and answers.  `newId` is the
      id the store assigns to the new row and `now` its creation time. */
  function RegisterSpec(users: seq<User>, email: Option<string>, password: Option<string>,
                        firstName: Option<string>, lastName: Option<string>,
                        hash: string -> string, sign: Id -> string, newId: Id, now: int): (o: RegisterOutcome)
    ensures o.response == MissingFields <==>
      !Provided(email) || !Provided(password) || !Provided(firstName) || !Provided(lastName)
    ensures o.response == EmailInUse <==>
      Provided(email) && Provided(password) && Provided(firstName) && Provided(lastName)
      && exists u :: u in users && u.email == email.value
    ensures !o.response.Registered? ==> o.users == users
    // a new row storing the hash of the password, never the password itself, with no points yet
    ensures o.response.Registered? ==>
      && o.users == users + [User(newId, email.value, hash(password.value), firstName.value, lastName.value, 0, now)]
      && o.response.token == sign(newId)
      && o.response.user == RegisteredUser(newId, email.value, firstName.value, lastName.value)
  {
    if !Provided(email) || !Provided(password) || !Provided(firstName) || !Provided(lastName) then
      RegisterOutcome(users, MissingFields)
    else if FindUserByEmail(users, email.value).Some? then
      RegisterOutcome(users, EmailInUse)
    else
      var row := User(newId, email.value, hash(password.value), firstName.value, lastName.value, 0, now);
      RegisterOutcome(users + [row], Registered(sign(newId), RegisteredUser(newId, row.email, row.firstName, row.lastName)))
  }

  /** `register`, run against the store. */
  method Register(db: Database, email: Option<string>, password: Option<string>,
                  firstName: Option<string>, lastName: Option<string>,
                  hash: string -> string, sign: Id -> string, newId: Id, now: int)
    returns (response: RegisterResponse)
    modifies db
    ensures RegisterOutcome(db.users, response)
            == RegisterSpec(old(db.users), email, password, firstName, lastName, hash, sign, newId, now)
    ensures db.locations == old(db.locations) && db.visits == old(db.visits) && db.timeline == old(db.timeline)
  {
    if !Provided(email) || !Provided(password) || !Provided(firstName) || !Provided(lastName) {
      return MissingFields;
    }
    var existingUser := FindUserByEmail(db.users, email.value);
    if existingUser.Some? {
      return EmailInUse;
    }
    var hashedPassword := hash(password.value);
    var newUser := User(newId, email.value, hashedPassword, firstName.value, lastName.value, 0, now);
    db.users := db.users + [newUser];
    var token := sign(newUser.id);
    response := Registered(token, RegisteredUser(newUser.id, newUser.email, newUser.firstName, newUser.lastName));
  }

  /** Registration keeps user ids and emails unique, given a fresh id. */
  lemma RegisterPreservesValid(s: DbState, email: Option<string>, password: Option<string>,
                               firstName: Option<string>, lastName: Option<string>,
                               hash: string -> string, sign: Id -> string, newId: Id, now: int)
    requires Valid(s)
    requires forall u :: u in s.users ==> u.id != newId
    ensures Valid(s.(users := RegisterSpec(s.users, email, password, firstName, lastName, hash, sign, newId, now).users))
  {
    var o := RegisterSpec(s.users, email, password, firstName, lastName, hash, sign, newId, now);
    if o.response.Registered? {
      var us := o.users;
      forall i, j | 0 <= i < j < |us| ensures us[i].id != us[j].id && us[i].email != us[j].email {
        if j == |us| - 1 {
          assert us[i] in s.users;
        }
      }
    }
  }

  datatype LoggedInUser = LoggedInUser(id: Id, email: string, firstName: string, lastName: string, totalPoints: int)

  datatype LoginResponse =
    | MissingCredentials                               // 400 'Please provide email and password'
    | IncorrectCredentials                             // 401 'Incorrect email or password'
    | LoggedIn(token: string, user: LoggedInUser)      // 200

  /** `login`: a read-only lookup and comparison.  An unknown email and a
      wrong password give the same answer. */
  function Login(users: seq<User>, email: Option<string>, password: Option<string>,
                 compare: (string, string) -> bool, sign: Id -> string): (r: LoginResponse)
    ensures r == MissingCredentials <==> !Provided(email) || !Provided(password)
    ensures r == IncorrectCredentials <==>
      Provided(email) && Provided(password)
      && (FindUserByEmail(users, email.value).None?
          || !compare(password.value, FindUserByEmail(users, email.value).value.passwordHash))
    ensures r.LoggedIn? ==>
      exists u :: u in users && u.email == email.value && compare(password.value, u.passwordHash)
        && r.token == sign(u.id)
        && r.user == LoggedInUser(u.id, u.email, u.firstName, u.lastName, u.totalPoints)
  {
    if !Provided(email) || !Provided(password) then MissingCredentials
    else match FindUserByEmail(users, email.value)
      case None => IncorrectCredentials
      case Some(u) =>
        if !compare(password.value, u.passwordHash) then IncorrectCredentials
        else LoggedIn(sign(u.id), LoggedInUser(u.id, u.email, u.firstName, u.lastName, u.totalPoints))
  }

  lemma {:induction false} FindUserByEmailAppend(users: seq<User>, row: User)
    requires forall u :: u in users ==> u.email != row.email
    ensures FindUserByEmail(users + [row], row.email) == Some(row)
  {
    if users == [] {
      assert users + [row] == [row];
    } else {
      assert (users + [row])[1..] == users[1..] + [row];
      FindUserByEmailAppend(users[1..], row);
    }
  }

  /** Logging in with the credentials just registered succeeds, with no
      points yet, provided the comparison accepts a password against its
      own hash. */
  lemma RegisterThenLogin(users: seq<User>, email: string, password: string, firstName: string, lastName: string,
                          hash: string -> string, compare: (string, string) -> bool, sign: Id -> string,
                          newId: Id, now: int)
    requires compare(password, hash(password))
    requires RegisterSpec(users, Some(email), Some(password), Some(firstName), Some(lastName), hash, sign, newId, now).response.Registered?
    ensures var after := RegisterSpec(users, Some(email), Some(password), Some(firstName), Some(lastName), hash, sign, newId, now).users;
            Login(after, Some(email), Some(password), compare, sign)
              == LoggedIn(sign(newId), LoggedInUser(newId, email, firstName, lastName, 0))
  {
    var row := User(newId, email, hash(password), firstName, lastName, 0, now);
    FindUserByEmailAppend(users, row);
  }
}
