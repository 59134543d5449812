/** The sign-in form: the credential check and what a submit does. */
module LoginFlow {
  import opened Wrappers
  import opened Types
  import opened WebStorage
  import opened StorageService
  import opened SessionService

  const INVALID_CREDENTIALS: string := "Invalid username or password."

  /** The sign-in decision: the registry holds a non-empty password for the
      name and it is exactly the one given. */
  function Authenticate(users: map<string, string>, username: string, password: string): (user: Option<User>)
    ensures user.Some? <==> username in users && users[username] != "" && users[username] == password
    ensures user.Some? ==> user.value == User(username)
  {
    if IsTaken(users, username) && users[username] == password then Some(User(username)) else None
  }

  /** An unknown name and a wrong password are refused alike. */
  lemma FailuresLookAlike(users: map<string, string>, unknown: string, known: string, wrong: string, guess: string)
    requires unknown !in users
    requires known in users && users[known] != wrong
    ensures Authenticate(users, unknown, guess) == None
    ensures Authenticate(users, known, wrong) == None
  {
  }

  /** The empty password never signs anyone in. */
  lemma EmptyPasswordRefused(users: map<string, string>, username: string)
    ensures Authenticate(users, username, "") == None
  {
  }

  /** A name just registered with a non-empty password signs in with it. */
  lemma RegisteredUserSignsIn(storage: map<string, Stored>, username: string, password: string)
    requires password != ""
    ensures Authenticate(GetUsers(AfterRegister(storage, username, password)), username, password) == Some(User(username))
  {
  }

  class LoginPage {
    const browser: Browser
    var error: string

    constructor (browser: Browser)
      ensures this.browser == browser && error == ""
    {
      this.browser := browser;
      error := "";
    }

    /** handleSubmit: on success writes the session slot and hands the user
        to the router (`onLogin`); otherwise shows the one error message. The
        registry is only read. */
    method HandleSubmit(username: string, password: string) returns (onLogin: Option<User>)
      modifies this`error, browser`session
      ensures onLogin == Authenticate(GetUsers(browser.local), username, password)
      ensures error == if onLogin.Some? then "" else INVALID_CREDENTIALS
      ensures browser.session ==
        if onLogin.Some? then AfterSetUser(old(browser.session), onLogin.value)
        else old(browser.session)
      ensures onLogin.Some? ==> GetCurrentUser(browser.session) == onLogin
    {
      error := "";
      var users := GetUsers(browser.local);
      if IsTaken(users, username) && users[username] == password {
        var user := User(username);
        SetCurrentUser(browser, user);
        onLogin := Some(user);
      } else {
        error := INVALID_CREDENTIALS;
        onLogin := None;
      }
    }
  }
}
