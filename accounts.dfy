/**
 * Accounts: sign-up and log-in (SignUpScreen, LogInScreen), the profile's
 * password change and logout (ProfileScreen), and the admin's role toggle and
 * user deletion (UserManagementScreen).
 */
module Accounts {
  import opened Objects
  import opened Store

  /** Sign-up and log-in both check 5 characters (the sign-up alert text says 6). */
  const MinCredentialLength: int := 5
  const MinNewPasswordLength: int := 4

  // ---------------------------------------------------------------------------
  // Sign-up and log-in.

  datatype CredentialCheck = MissingCredential | ShortCredential | CredentialsOk

  /** The two input guards that run before any query, in this order. */
  function CheckCredentials(username: string, password: string): (r: CredentialCheck)
    ensures r == MissingCredential <==> username == "" || password == ""
    ensures r == ShortCredential <==>
      username != "" && password != "" && (Utf16Length(username) < MinCredentialLength || Utf16Length(password) < MinCredentialLength)
    ensures r == CredentialsOk <==> Utf16Length(username) >= MinCredentialLength && Utf16Length(password) >= MinCredentialLength
  {
    if username == "" || password == "" then MissingCredential
    else if Utf16Length(username) < MinCredentialLength || Utf16Length(password) < MinCredentialLength then ShortCredential
    else CredentialsOk
  }

  datatype SignUpResult = SignUpInvalid(check: CredentialCheck) | UsernameTaken | Registered(id: int)

  /**
   * handleSignup: the input guards, then checkUserExists, then an INSERT of the
   * next id with role 'user'.
   */
  method SignUp(db: Database, username: string, password: string) returns (result: SignUpResult)
    requires db.Valid()
    modifies db`users
    ensures db.Valid()
    ensures result.SignUpInvalid? <==> CheckCredentials(username, password) != CredentialsOk
    ensures result.SignUpInvalid? ==> result.check == CheckCredentials(username, password)
    ensures result == UsernameTaken <==>
      CheckCredentials(username, password) == CredentialsOk && UserExists(old(db.users), username)
    ensures !result.Registered? ==> db.users == old(db.users)
    ensures result.Registered? ==>
      result.id == NextId(old(db.users), UserKey) &&
      db.users == old(db.users) + [User(result.id, username, password, UserRole)]
  {
    var check := CheckCredentials(username, password);
    if check != CredentialsOk {
      return SignUpInvalid(check);
    }
    if UserExists(db.users, username) {
      return UsernameTaken;
    }
    var users := CopyRows(db.users);
    var id := NextId(users, UserKey);
    var row := User(id, username, password, UserRole);
    forall i, j | 0 <= i < j < |users| ensures UserKey(users[i]) < UserKey(users[j]) {
      assert UserBefore(users[i], users[j]);
    }
    NextIdFresh(users, UserKey);
    forall i | 0 <= i < |users| ensures UserKey(users[i]) < UserKey(row) {
    }
    InsertSortedAtEnd(users, row, UserKey);
    var ok := db.InsertUser(row);
    assert ok by {
      forall x | x in users ensures x.id != id && x.username != username {
        var i :| 0 <= i < |users| && users[i] == x;
      }
    }
    result := Registered(id);
  }

  /** A successful sign-up keeps usernames unique and makes the new name known. */
  lemma SignUpKeepsNamesUnique(users: seq<User>, username: string, password: string)
    requires Pairwise(users, UserBefore)
    requires !UserExists(users, username)
    ensures var grown := users + [User(NextId(users, UserKey), username, password, UserRole)];
      Pairwise(grown, UserBefore) && UserExists(grown, username)
  {
    var row := User(NextId(users, UserKey), username, password, UserRole);
    forall i, j | 0 <= i < j < |users| ensures UserKey(users[i]) < UserKey(users[j]) {
      assert UserBefore(users[i], users[j]);
    }
    NextIdFresh(users, UserKey);
    forall i | 0 <= i < |users| ensures UserBefore(users[i], row) {
      assert users[i] in users;
    }
    PairwiseSnoc(users, row, UserBefore);
    assert row in users + [row];
  }

  datatype Route = AdminDashboard | HomeScreen

  /** Where a logged-in user is sent: admins to the dashboard, everyone else home. */
  function RouteFor(role: string): (r: Route)
    ensures r == AdminDashboard <==> role == AdminRole
  {
    if role == AdminRole then AdminDashboard else HomeScreen
  }

  datatype LogInResult = LogInInvalid(check: CredentialCheck) | BadCredentials | LoggedIn(user: User, route: Route)

  /** handleLogin: the input guards, then getUserByCredentials; a match becomes the session. */
  method LogIn(db: Database, username: string, password: string) returns (result: LogInResult)
    modifies db`session
    ensures result.LogInInvalid? <==> CheckCredentials(username, password) != CredentialsOk
    ensures result.LogInInvalid? ==> result.check == CheckCredentials(username, password)
    ensures result == BadCredentials <==>
      CheckCredentials(username, password) == CredentialsOk && UserByCredentials(db.users, username, password).None?
    ensures !result.LoggedIn? ==> db.session == old(db.session)
    ensures result.LoggedIn? ==>
      Some(result.user) == UserByCredentials(db.users, username, password) &&
      db.session == Some(result.user) && result.route == RouteFor(result.user.role)
  {
    var check := CheckCredentials(username, password);
    if check != CredentialsOk {
      return LogInInvalid(check);
    }
    match UserByCredentials(db.users, username, password)
    case None =>
      result := BadCredentials;
    case Some(user) =>
      db.session := Some(user);
      result := LoggedIn(user, RouteFor(user.role));
  }

  // ---------------------------------------------------------------------------
  // ProfileScreen.

  datatype PasswordChange = NoUser | WrongPassword | NewPasswordTooShort | ConfirmMismatch | Changed

  /** handleChangePassword's guards, in order. */
  function CheckPasswordChange(user: Option<User>, oldPw: string, newPw: string, confirmPw: string): (r: PasswordChange)
    ensures r == NoUser <==> user.None?
    ensures r == WrongPassword <==> user.Some? && oldPw != user.value.password
    ensures r == NewPasswordTooShort <==> user.Some? && oldPw == user.value.password && Utf16Length(newPw) < MinNewPasswordLength
    ensures r == ConfirmMismatch <==>
      user.Some? && oldPw == user.value.password && Utf16Length(newPw) >= MinNewPasswordLength && newPw != confirmPw
    ensures r == Changed <==>
      user.Some? && oldPw == user.value.password && Utf16Length(newPw) >= MinNewPasswordLength && newPw == confirmPw
  {
    if user.None? then NoUser
    else if oldPw != user.value.password then WrongPassword
    else if Utf16Length(newPw) < MinNewPasswordLength then NewPasswordTooShort
    else if newPw != confirmPw then ConfirmMismatch
    else Changed
  }

  class ProfileView {
    var user: Option<User>
    var oldPw: string
    var newPw: string
    var confirmPw: string
    var showForm: bool

    constructor()
      ensures user == None && oldPw == "" && newPw == "" && confirmPw == "" && !showForm
    {
      user, oldPw, newPw, confirmPw, showForm := None, "", "", "", false;
    }

    /** initScreen: take the session user if there is one. */
    method Load(db: Database)
      modifies this`user
      ensures user == if db.session.Some? then db.session else old(user)
    {
      if db.session.Some? {
        user := db.session;
      }
    }

    /** handleLogout: the session and the screen's user are gone. */
    method Logout(db: Database)
      modifies db`session, this`user
      ensures db.session == None && user == None
    {
      db.session := None;
      user := None;
    }

    /** handleChangePassword: on success write `password` only, then the session and the form. */
    method ChangePassword(db: Database) returns (result: PasswordChange)
      requires db.Valid()
      modifies this, db`users, db`session
      ensures db.Valid()
      ensures result == CheckPasswordChange(old(user), old(oldPw), old(newPw), old(confirmPw))
      ensures result != Changed ==>
        db.users == old(db.users) && db.session == old(db.session) && user == old(user) &&
        oldPw == old(oldPw) && newPw == old(newPw) && confirmPw == old(confirmPw) && showForm == old(showForm)
      ensures result == Changed ==>
        var updated := old(user).value.(password := old(newPw));
        && db.users == SetPassword(old(db.users), updated.id, updated.password)
        && db.session == Some(updated) && user == Some(updated)
        && oldPw == "" && newPw == "" && confirmPw == "" && !showForm
    {
      result := CheckPasswordChange(user, oldPw, newPw, confirmPw);
      if result != Changed {
        return;
      }
      var updated := user.value.(password := newPw);
      db.UpdateUserPassword(updated.id, newPw);
      db.session := Some(updated);
      user := Some(updated);
      oldPw, newPw, confirmPw := "", "", "";
      showForm := false;
    }
  }

  /** The new password is what the stored row now holds; nothing else of the user changed. */
  lemma PasswordChangeOnlyPassword(users: seq<User>, user: User, newPw: string, i: int)
    requires 0 <= i < |users| && users[i].id == user.id
    ensures var after := SetPassword(users, user.id, newPw)[i];
      after.password == newPw && after.id == users[i].id && after.username == users[i].username && after.role == users[i].role
  {
  }

  // ---------------------------------------------------------------------------
  // UserManagementScreen.

  /** The role handleChangeRole writes: 'user' for an admin, 'admin' for anyone else. */
  function ToggleRole(role: string): (r: string)
    ensures r == UserRole <==> role == AdminRole
    ensures r == AdminRole <==> role != AdminRole
    ensures r != role
  {
    if role == AdminRole then UserRole else AdminRole
  }

  /** Toggling twice restores an admin or a user. */
  lemma ToggleRoleTwice(role: string)
    requires role == AdminRole || role == UserRole
    ensures ToggleRole(ToggleRole(role)) == role
  {
  }

  /** The role write for an id: the first listed user with it, toggled. */
  function RoleWrite(users: seq<User>, id: int): (r: Option<string>)
    ensures r.None? <==> forall u :: u in users ==> u.id != id
    ensures r.Some? ==> exists u :: u in users && u.id == id && r.value == ToggleRole(u.role)
  {
    match Find(users, (u: User) => u.id == id)
    case Some(u) => Some(ToggleRole(u.role))
    case None => None
  }

  class UserAdmin {
    var users: seq<User>

    constructor()
      ensures users == []
    {
      users := [];
    }

    method Load(db: Database)
      modifies this`users
      ensures users == db.users
    {
      users := CopyRows(db.users);
    }

    /** handleChangeRole: the first listed user with the id gets the other role; the list is reloaded. */
    method HandleChangeRole(db: Database, id: int)
      requires db.Valid()
      modifies this`users, db`users
      ensures db.Valid()
      ensures RoleWrite(old(users), id).None? ==> db.users == old(db.users) && users == old(users)
      ensures RoleWrite(old(users), id).Some? ==>
        db.users == SetRole(old(db.users), id, RoleWrite(old(users), id).value) && users == db.users
    {
      var i := 0;
      while i < |users|
        invariant 0 <= i <= |users|
        invariant users == old(users) && db.users == old(db.users)
        invariant forall j :: 0 <= j < i ==> users[j].id != id
      {
        if users[i].id == id {
          var newRole := ToggleRole(users[i].role);
          db.UpdateUserRole(id, newRole);
          users := CopyRows(db.users);
          return;
        }
        i := i + 1;
      }
    }

    /** handleDelete: when the id is listed, the row is deleted and the list reloaded. */
    method HandleDelete(db: Database, id: int)
      requires db.Valid()
      modifies this`users, db`users
      ensures db.Valid()
      ensures (forall u :: u in old(users) ==> u.id != id) ==> db.users == old(db.users) && users == old(users)
      ensures (exists u :: u in old(users) && u.id == id) ==>
        db.users == DeleteId(old(db.users), id, UserKey) && users == db.users
    {
      var i := 0;
      while i < |users|
        invariant 0 <= i <= |users|
        invariant users == old(users) && db.users == old(db.users)
        invariant forall j :: 0 <= j < i ==> users[j].id != id
      {
        if users[i].id == id {
          db.DeleteUser(id);
          users := CopyRows(db.users);
          return;
        }
        i := i + 1;
      }
    }
  }
}
