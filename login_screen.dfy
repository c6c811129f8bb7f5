/** The login screen: the user types only a name; the app derives an email
    and a fixed password from it, tries to log in, registers the name when
    the login is refused, and signs the session in with the token it gets. */
module LoginScreen {
  import opened Wrappers
  import opened Schema
  import opened Mobile
  import Text
  import AuthContext
  import AuthController
  import ResetGuest

  const EmailDomain := "@hacknation.test"
  const DefaultPassword := "hackathon_default_pass"
  const GuestLastName := "Guest"

  /** `username.trim().toLowerCase().replace(/\s+/g, '')`: lower case, with
      no whitespace left anywhere. */
  function NormalizedName(username: string): (name: string)
    ensures Text.HasNoSpace(name) && Text.IsLower(name)
  {
    var lowered := Text.ToLower(Text.Trim(username));
    Text.RemoveSpacesHasNoSpace(lowered);
    Text.RemoveSpacesKeepsLower(lowered);
    Text.RemoveSpaces(lowered)
  }

  /** The email the account of a name is registered under. */
  function DerivedEmail(username: string): (email: string)
    ensures |email| == |NormalizedName(username)| + |EmailDomain|
    ensures email[..|NormalizedName(username)|] == NormalizedName(username)
    ensures email[|NormalizedName(username)|..] == EmailDomain
  {
    NormalizedName(username) + EmailDomain
  }

  /** Normalizing a normalized name changes nothing. */
  lemma NormalizedNameIdempotent(username: string)
    ensures NormalizedName(NormalizedName(username)) == NormalizedName(username)
  {
    var n := NormalizedName(username);
    assert Text.TrimStart(n) == n;
    assert Text.TrimEnd(n) == n;
    Text.ToLowerOfLower(n);
    Text.RemoveSpacesOfNoSpace(n);
  }

  /** Names that differ only in letter case share one account. */
  lemma EmailIgnoresCase(a: string, b: string)
    requires Text.SameIgnoringCase(a, b)
    ensures DerivedEmail(a) == DerivedEmail(b)
  {
    Text.RemoveSpacesIgnoresTrim(a);
    Text.RemoveSpacesIgnoresTrim(b);
    assert Text.ToLower(a) == Text.ToLower(b);
  }

  /** Names that differ by a whitespace character share one account. */
  lemma EmailIgnoresWhitespace(a: string, b: string, c: char)
    requires Text.IsSpace(c)
    ensures DerivedEmail(a + [c] + b) == DerivedEmail(a + b)
  {
    var la, lb := Text.ToLower(a), Text.ToLower(b);
    var lc := Text.ToLower([c]);
    assert Text.RemoveSpaces(lc) == [] by {
      assert lc == [Text.LowerChar(c)];
      assert lc[1..] == [];
    }
    calc {
      NormalizedName(a + [c] + b);
      { Text.RemoveSpacesIgnoresTrim(a + [c] + b); }
      Text.RemoveSpaces(Text.ToLower(a + [c] + b));
      { Text.ToLowerConcat(a + [c], b); Text.ToLowerConcat(a, [c]); }
      Text.RemoveSpaces(la + lc + lb);
      { Text.RemoveSpacesConcat(la + lc, lb); Text.RemoveSpacesConcat(la, lc); }
      Text.RemoveSpaces(la) + Text.RemoveSpaces(lc) + Text.RemoveSpaces(lb);
      Text.RemoveSpaces(la) + Text.RemoveSpaces(lb);
      { Text.RemoveSpacesConcat(la, lb); Text.ToLowerConcat(a, b); }
      Text.RemoveSpaces(Text.ToLower(a + b));
      { Text.RemoveSpacesIgnoresTrim(a + b); }
      NormalizedName(a + b);
    }
  }

  /** The guard `!username.trim()` lets through exactly the names whose
      normalized form, the part of the email before "@", is not empty. */
  lemma NameAcceptedIffNonEmptyLocalPart(username: string)
    ensures Text.Trim(username) != "" <==> NormalizedName(username) != ""
  {
    Text.RemoveSpacesIgnoresTrim(username);
    Text.RemoveSpacesEmptyIffAllSpace(Text.ToLower(username));
    Text.ToLowerAllSpace(username);
    Text.TrimEmptyIffAllSpace(username);
  }

  // ---------------------------------------------------------------------
  // handleLogin

  /** The requests the screen sends, in order. */
  datatype ApiCall =
    | LoginCall(email: string, password: string)
    | RegisterCall(email: string, password: string, firstName: string, lastName: string)

  /** The bodies of successful `/auth/login` and `/auth/register` replies;
      the registration's token is read for truthiness. */
  datatype LoginBody = LoginBody(token: string, user: AppUser)
  datatype RegisterBody = RegisterBody(token: Option<string>, user: AppUser)

  /** How a press of the button ends: the "Required" alert, a signed-in
      session, an error alert with the server's status, or the alert that
      the system could not be reached. */
  datatype Outcome = NameRequired | SignedIn(token: string, user: AppUser) | ServerError(status: int) | Unreachable

  datatype LoginRun = LoginRun(calls: seq<ApiCall>, outcome: Outcome)

  /** A refused login that makes the screen register the name instead. */
  predicate RegistersAfter(first: Reply<LoginBody>) {
    first.HttpError? && (first.status == 400 || first.status == 401 || first.status == 404)
  }

  /** The alert a failed reply ends in. */
  function Failure<T>(reply: Reply<T>): (o: Outcome)
    requires !reply.Ok?
    ensures o.ServerError? <==> reply.HttpError?
    ensures o.ServerError? ==> o.status == reply.status
    ensures reply.NetworkError? ==> o == Unreachable
  {
    if reply.HttpError? then ServerError(reply.status) else Unreachable
  }

  /** What one press of the button sends and how it ends, given the replies
      to the first login, the registration and the fallback login. */
  function LoginFlow(username: string, first: Reply<LoginBody>, registration: Reply<RegisterBody>,
                     second: Reply<LoginBody>): (run: LoginRun)
    ensures run.outcome == NameRequired <==> Text.Trim(username) == ""
    ensures run.outcome == NameRequired ==> run.calls == []
    ensures Text.Trim(username) != "" ==>
      1 <= |run.calls| <= 3 && run.calls[0] == LoginCall(DerivedEmail(username), DefaultPassword)
    // the name is registered only after a refused login, with the raw name as first name
    ensures |run.calls| >= 2 <==> Text.Trim(username) != "" && RegistersAfter(first)
    ensures |run.calls| >= 2 ==>
      run.calls[1] == RegisterCall(DerivedEmail(username), DefaultPassword, username, GuestLastName)
    // the fallback login repeats the first one, when the registration brings no token
    ensures |run.calls| == 3 <==>
      Text.Trim(username) != "" && RegistersAfter(first) && registration.Ok? && !Truthy(registration.body.token)
    ensures |run.calls| == 3 ==> run.calls[2] == run.calls[0]
    ensures run.outcome.SignedIn? <==>
      Text.Trim(username) != "" &&
      (first.Ok? || (RegistersAfter(first) && registration.Ok? && (Truthy(registration.body.token) || second.Ok?)))
    ensures Text.Trim(username) != "" && first.Ok? ==> run.outcome == SignedIn(first.body.token, first.body.user)
    ensures Text.Trim(username) != "" && !first.Ok? && !RegistersAfter(first) ==> run.outcome == Failure(first)
    ensures |run.calls| == 2 && registration.Ok? ==>
      run.outcome == SignedIn(registration.body.token.value, registration.body.user)
    ensures |run.calls| == 3 && second.Ok? ==> run.outcome == SignedIn(second.body.token, second.body.user)
    // a failed registration, or a failed fallback login, ends in the alert for that reply
    ensures Text.Trim(username) != "" && RegistersAfter(first) && !registration.Ok? ==>
      run.outcome == Failure(registration)
    ensures Text.Trim(username) != "" && RegistersAfter(first) && registration.Ok? && !Truthy(registration.body.token) && !second.Ok? ==>
      run.outcome == Failure(second)
  {
    if Text.Trim(username) == "" then LoginRun([], NameRequired)
    else
      var login := LoginCall(DerivedEmail(username), DefaultPassword);
      if first.Ok? then LoginRun([login], SignedIn(first.body.token, first.body.user))
      else if !RegistersAfter(first) then LoginRun([login], Failure(first))
      else
        var calls := [login, RegisterCall(DerivedEmail(username), DefaultPassword, username, GuestLastName)];
        if !registration.Ok? then LoginRun(calls, Failure(registration))
        else if Truthy(registration.body.token) then
          LoginRun(calls, SignedIn(registration.body.token.value, registration.body.user))
        else if second.Ok? then LoginRun(calls + [login], SignedIn(second.body.token, second.body.user))
        else LoginRun(calls + [login], Failure(second))
  }

  class LoginForm {
    var loading: bool
    var username: string

    constructor ()
      ensures !loading && username == ""
    {
      loading := false;
      username := "";
    }

    /** The text field's `onChangeText`. */
    method SetUsername(text: string)
      modifies this
      ensures username == text && loading == old(loading)
    {
      username := text;
    }

    /** `handleLogin`: the three replies are what the server would answer
        to each request, should it be sent. */
    method HandleLogin(session: AuthContext.Session, first: Reply<LoginBody>, registration: Reply<RegisterBody>,
                       second: Reply<LoginBody>, stringify: AppUser -> string) returns (run: LoginRun)
      modifies this, session, session.store
      ensures run == LoginFlow(old(username), first, registration, second)
      ensures username == old(username)
      // the spinner is off again once the attempt is over, and untouched by the early return
      ensures loading == if run.outcome.NameRequired? then old(loading) else false
      ensures run.outcome.SignedIn? ==>
        && session.state == AuthContext.AuthState(Some(run.outcome.user), Some(run.outcome.token), false)
        && session.store.items == old(session.store.items)[TokenKey := run.outcome.token][UserKey := stringify(run.outcome.user)]
      ensures !run.outcome.SignedIn? ==>
        session.state == old(session.state) && session.store.items == old(session.store.items)
    {
      if Text.Trim(username) == "" {
        run := LoginRun([], NameRequired);
        return;
      }
      loading := true;
      run := Attempt(username, first, registration, second);
      // every branch that obtains a token ends in `signIn(token, user)`
      if run.outcome.SignedIn? {
        session.SignIn(run.outcome.token, run.outcome.user, stringify);
      }
      loading := false;
    }
  }

  /** The body of `handleLogin`'s `try` block, for a name that is not blank:
      the requests in the order they are sent and the outcome they reach. */
  method Attempt(username: string, first: Reply<LoginBody>, registration: Reply<RegisterBody>,
                 second: Reply<LoginBody>) returns (run: LoginRun)
    requires Text.Trim(username) != ""
    ensures run == LoginFlow(username, first, registration, second)
  {
    var email := DerivedEmail(username);
    var password := DefaultPassword;
    var firstName := username;
    var lastName := GuestLastName;
    var calls := [LoginCall(email, password)];
    var outcome: Outcome;
    if first.Ok? {
      outcome := SignedIn(first.body.token, first.body.user);
    } else if first.HttpError? && (first.status == 400 || first.status == 401 || first.status == 404) {
      calls := calls + [RegisterCall(email, password, firstName, lastName)];
      if !registration.Ok? {
        outcome := Failure(registration);
      } else if registration.body.token.Some? && registration.body.token.value != "" {
        outcome := SignedIn(registration.body.token.value, registration.body.user);
      } else {
        calls := calls + [LoginCall(email, password)];
        outcome := if second.Ok? then SignedIn(second.body.token, second.body.user) else Failure(second);
      }
    } else {
      outcome := Failure(first);
    }
    run := LoginRun(calls, outcome);
  }

  // ---------------------------------------------------------------------
  // Against the backend

  /** The reply the backend's `login` gives, as the screen reads it. */
  function LoginReply(r: AuthController.LoginResponse): (reply: Reply<LoginBody>)
    ensures reply.Ok? <==> r.LoggedIn?
    ensures r.IncorrectCredentials? ==> reply == HttpError(401)
  {
    match r
    case MissingCredentials => HttpError(400)
    case IncorrectCredentials => HttpError(401)
    case LoggedIn(token, u) => Ok(LoginBody(token, AppUser(u.id, u.email, u.firstName, Some(u.totalPoints))))
  }

  /** The reply the backend's `register` gives; its user has no points field. */
  function RegisterReply(r: AuthController.RegisterResponse): (reply: Reply<RegisterBody>)
    ensures reply.Ok? <==> r.Registered?
    ensures reply.Ok? ==> reply.body.token == Some(r.token) && reply.body.user.totalPoints.None?
  {
    match r
    case MissingFields => HttpError(400)
    case EmailInUse => HttpError(400)
    case Registered(token, u) => Ok(RegisterBody(Some(token), AppUser(u.id, u.email, u.firstName, None)))
  }

  /** A name never seen before: the first login is refused with 401, the
      screen registers the name, and the session is signed in with the new
      account's token after two requests. */
  lemma NewNameRegisters(users: seq<User>, username: string, hash: string -> string,
                         compare: (string, string) -> bool, sign: Id -> string, newId: Id, now: int,
                         second: Reply<LoginBody>)
    requires Text.Trim(username) != ""
    requires forall u :: u in users ==> u.email != DerivedEmail(username)
    requires sign(newId) != ""
    ensures var email := DerivedEmail(username);
      var first := LoginReply(AuthController.Login(users, Some(email), Some(DefaultPassword), compare, sign));
      var registration := RegisterReply(AuthController.RegisterSpec(users, Some(email), Some(DefaultPassword),
                                          Some(username), Some(GuestLastName), hash, sign, newId, now).response);
      LoginFlow(username, first, registration, second)
        == LoginRun([LoginCall(email, DefaultPassword), RegisterCall(email, DefaultPassword, username, GuestLastName)],
                    SignedIn(sign(newId), AppUser(newId, email, username, None)))
  {
    var email := DerivedEmail(username);
    assert FindUserByEmail(users, email).None?;
  }

  /** A name already registered with the default password signs in with the
      first request, with the account's points. */
  lemma KnownNameLogsIn(users: seq<User>, username: string, compare: (string, string) -> bool, sign: Id -> string,
                        registration: Reply<RegisterBody>, second: Reply<LoginBody>)
    requires Text.Trim(username) != ""
    requires FindUserByEmail(users, DerivedEmail(username)).Some?
    requires compare(DefaultPassword, FindUserByEmail(users, DerivedEmail(username)).value.passwordHash)
    ensures var email := DerivedEmail(username);
      var u := FindUserByEmail(users, email).value;
      LoginFlow(username, LoginReply(AuthController.Login(users, Some(email), Some(DefaultPassword), compare, sign)),
                registration, second)
        == LoginRun([LoginCall(email, DefaultPassword)],
                    SignedIn(sign(u.id), AppUser(u.id, u.email, u.firstName, Some(u.totalPoints))))
  {
    NameAcceptedIffNonEmptyLocalPart(username);
  }

  /** The name "A" is the account a@hacknation.test. */
  lemma NameAEmail()
    ensures DerivedEmail("A") == "a@hacknation.test"
  {
    var name: string := "A";
    assert !Text.IsSpace(name[0]) && Text.TrimStart(name) == name;
    assert Text.TrimEnd(name) == name;
    assert Text.LowerChar('A') == 'a';
    var lowered: string := "a";
    assert Text.ToLower(name) == lowered;
    assert lowered[1..] == [];
    assert Text.RemoveSpaces(lowered) == lowered;
    assert NormalizedName(name) == lowered;
    assert lowered + EmailDomain == "a@hacknation.test";
  }

  /** Typing the name "A" registers the account "A Guest": the demo
      account the reset script looks for. */
  lemma NameAIsTheGuest(users: seq<User>, email: string, hash: string -> string, sign: Id -> string, newId: Id, now: int)
    requires AuthController.RegisterSpec(users, Some(email), Some(DefaultPassword), Some("A"),
                                         Some(GuestLastName), hash, sign, newId, now).response.Registered?
    ensures var after := AuthController.RegisterSpec(users, Some(email), Some(DefaultPassword), Some("A"),
                                                    Some(GuestLastName), hash, sign, newId, now).users;
      |after| == |users| + 1 && ResetGuest.IsGuest(after[|users|])
  {
  }
}
