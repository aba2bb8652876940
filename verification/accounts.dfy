/** The user registry of the login page (login.js): a list of username and
    password pairs that sign-up appends to, and the name of the signed-in user
    that login sets. */
module Accounts {
  import opened Seqs
  import Text

  /** One registered user, both fields as stored: trimmed. */
  datatype Account = Account(user: string, pass: string)

  /** How a sign-up attempt ends: a field left empty, a name already taken, or a
      new account. */
  datatype SignUpOutcome = MissingField | UserExists | Created

  /** How a login attempt ends: a field left empty, no matching account, or
      signed in. */
  datatype LoginOutcome = MissingCredentials | InvalidCredentials | LoggedIn

  predicate UniqueUsers(users: seq<Account>) {
    forall i, j :: 0 <= i < j < |users| ==> users[i].user != users[j].user
  }

  /** Some account in `users` has the name `user`. */
  predicate Registered(users: seq<Account>, user: string) {
    exists i :: 0 <= i < |users| && users[i].user == user
  }

  function NamedAs(user: string): Account -> bool {
    (a: Account) => a.user == user
  }

  /** The sign-up decision: both trimmed fields must be non-empty and the
      trimmed name must not be registered yet. */
  function SignUpOutcomeFor(users: seq<Account>, rawUser: string, rawPass: string): (o: SignUpOutcome)
    ensures o == MissingField <==> Text.Trim(rawUser) == [] || Text.Trim(rawPass) == []
    ensures o == UserExists <==>
      Text.Trim(rawUser) != [] && Text.Trim(rawPass) != [] && Registered(users, Text.Trim(rawUser))
    ensures o == Created <==>
      Text.Trim(rawUser) != [] && Text.Trim(rawPass) != [] && !Registered(users, Text.Trim(rawUser))
  {
    var user, pass := Text.Trim(rawUser), Text.Trim(rawPass);
    if user == [] || pass == [] then MissingField
    else if FindFirst(users, NamedAs(user)).Some? then UserExists
    else Created
  }

  /** The registry after a sign-up attempt. */
  function SignedUp(users: seq<Account>, rawUser: string, rawPass: string): seq<Account> {
    if SignUpOutcomeFor(users, rawUser, rawPass) == Created
    then users + [Account(Text.Trim(rawUser), Text.Trim(rawPass))]
    else users
  }

  /** The login decision: both trimmed fields must be non-empty and some account
      must have exactly that name and that password. */
  function LoginOutcomeFor(users: seq<Account>, rawUser: string, rawPass: string): (o: LoginOutcome)
    ensures o == MissingCredentials <==> Text.Trim(rawUser) == [] || Text.Trim(rawPass) == []
    ensures o == LoggedIn <==>
      Text.Trim(rawUser) != [] && Text.Trim(rawPass) != []
      && Account(Text.Trim(rawUser), Text.Trim(rawPass)) in users
  {
    var user, pass := Text.Trim(rawUser), Text.Trim(rawPass);
    if user == [] || pass == [] then MissingCredentials
    else
      var found := FindFirst(users, (a: Account) => a.user == user && a.pass == pass);
      if found.Some? then LoggedIn else InvalidCredentials
  }

  /** Sign-up never registers a name twice. */
  lemma SignUpKeepsUsersUnique(users: seq<Account>, rawUser: string, rawPass: string)
    requires UniqueUsers(users)
    ensures UniqueUsers(SignedUp(users, rawUser, rawPass))
  {
    var r := SignedUp(users, rawUser, rawPass);
    if SignUpOutcomeFor(users, rawUser, rawPass) == Created {
      forall i | 0 <= i < |users| ensures r[i].user != r[|users|].user {
        assert r[i] == users[i];
      }
    }
  }

  /** A sign-up changes nothing but, when it succeeds, adds one account at the end. */
  lemma SignUpOnlyAppends(users: seq<Account>, rawUser: string, rawPass: string)
    ensures var r := SignedUp(users, rawUser, rawPass);
      && r[..|users|] == users
      && |r| == |users| + (if SignUpOutcomeFor(users, rawUser, rawPass) == Created then 1 else 0)
  {
  }

  /** After a successful sign-up the same two fields log in. */
  lemma LoginAfterSignUp(users: seq<Account>, rawUser: string, rawPass: string)
    requires SignUpOutcomeFor(users, rawUser, rawPass) == Created
    ensures LoginOutcomeFor(SignedUp(users, rawUser, rawPass), rawUser, rawPass) == LoggedIn
  {
    var r := SignedUp(users, rawUser, rawPass);
    assert r[|users|] == Account(Text.Trim(rawUser), Text.Trim(rawPass));
  }

  /** A name that can log in cannot be signed up again, whatever the password. */
  lemma LoggedInNameIsTaken(users: seq<Account>, rawUser: string, rawPass: string, otherPass: string)
    requires LoginOutcomeFor(users, rawUser, rawPass) == LoggedIn
    requires Text.Trim(otherPass) != []
    ensures SignUpOutcomeFor(users, rawUser, otherPass) == UserExists
  {
    var a := Account(Text.Trim(rawUser), Text.Trim(rawPass));
    var i :| 0 <= i < |users| && users[i] == a;
    assert users[i].user == Text.Trim(rawUser);
  }

  /** With unique names, a login succeeds exactly when the password matches the
      one stored for that name. */
  lemma LoginChecksStoredPassword(users: seq<Account>, rawUser: string, rawPass: string, i: nat)
    requires UniqueUsers(users)
    requires i < |users| && users[i].user == Text.Trim(rawUser)
    requires Text.Trim(rawUser) != [] && Text.Trim(rawPass) != []
    ensures LoginOutcomeFor(users, rawUser, rawPass) == LoggedIn <==> users[i].pass == Text.Trim(rawPass)
  {
    var a := Account(Text.Trim(rawUser), Text.Trim(rawPass));
    if users[i].pass == a.pass {
      assert users[i] == a;
    }
    if a in users {
      var j :| 0 <= j < |users| && users[j] == a;
      assert i == j;
    }
  }

  class AccountStore {
    var users: seq<Account>
    var currentUser: Option<string>

    /** Starts from the saved registry and the saved signed-in user, if any. */
    constructor (saved: seq<Account>, signedIn: Option<string>)
      ensures users == saved && currentUser == signedIn
    {
      users := saved;
      currentUser := signedIn;
    }

    /** The sign-up handler: appends the trimmed name and password when both are
        given and the name is free, and otherwise leaves the registry alone. */
    method SignUp(rawUser: string, rawPass: string) returns (outcome: SignUpOutcome)
      modifies this`users
      ensures outcome == SignUpOutcomeFor(old(users), rawUser, rawPass)
      ensures users == SignedUp(old(users), rawUser, rawPass)
      ensures UniqueUsers(old(users)) ==> UniqueUsers(users)
    {
      var user := Text.Trim(rawUser);
      var pass := Text.Trim(rawPass);
      if user == [] || pass == [] {
        return MissingField;
      }
      if FindFirst(users, NamedAs(user)).Some? {
        return UserExists;
      }
      if UniqueUsers(users) {
        SignUpKeepsUsersUnique(users, rawUser, rawPass);
      }
      users := users + [Account(user, pass)];
      outcome := Created;
    }

    /** The login handler: signs in the trimmed name when an account has exactly
        that name and password, and otherwise leaves the signed-in user alone. */
    method Login(rawUser: string, rawPass: string) returns (outcome: LoginOutcome)
      modifies this`currentUser
      ensures outcome == LoginOutcomeFor(users, rawUser, rawPass)
      ensures currentUser == if outcome == LoggedIn then Some(Text.Trim(rawUser)) else old(currentUser)
    {
      var user := Text.Trim(rawUser);
      var pass := Text.Trim(rawPass);
      if user == [] || pass == [] {
        return MissingCredentials;
      }
      var found := FindFirst(users, (a: Account) => a.user == user && a.pass == pass);
      if found.Some? {
        currentUser := Some(user);
        outcome := LoggedIn;
      } else {
        outcome := InvalidCredentials;
      }
    }
  }
}
