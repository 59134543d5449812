/** The registration form: ordered validation, then registration. */
module SignupFlow {
  import opened Wrappers
  import opened Types
  import opened WebStorage
  import opened StorageService

  const MIN_PASSWORD_LENGTH: nat := 4
  const PASSWORD_TOO_SHORT: string := "Password must be at least 4 characters long."
  const PASSWORDS_DIFFER: string := "Passwords do not match."
  const USERNAME_TAKEN: string := "Username is already taken."
  const ACCOUNT_CREATED: string := "Account created successfully! You can now log in."

  /** The local checks, length first: the message of the first one that
      fails, or none. */
  function Validate(password: string, confirmPassword: string): (problem: Option<string>)
    ensures problem == None <==> |password| >= MIN_PASSWORD_LENGTH && password == confirmPassword
    ensures |password| < MIN_PASSWORD_LENGTH ==> problem == Some(PASSWORD_TOO_SHORT)
    ensures |password| >= MIN_PASSWORD_LENGTH && password != confirmPassword ==> problem == Some(PASSWORDS_DIFFER)
  {
    if |password| < MIN_PASSWORD_LENGTH then Some(PASSWORD_TOO_SHORT)
    else if password != confirmPassword then Some(PASSWORDS_DIFFER)
    else None
  }

  /** A password that passes the checks is never empty, so the registry
      entry it creates counts as taken. */
  lemma ValidPasswordIsTaken(storage: map<string, Stored>, username: string, password: string, confirmPassword: string)
    requires Validate(password, confirmPassword) == None
    ensures IsTaken(GetUsers(AfterRegister(storage, username, password)), username)
  {
  }

  class SignupPage {
    const browser: Browser
    var error: string
    var success: string

    constructor (browser: Browser)
      ensures this.browser == browser && error == "" && success == ""
    {
      this.browser := browser;
      error := "";
      success := "";
    }

    /** handleSubmit: `signedUp` says that the success message is shown and
        `onSignupSuccess` is scheduled. The session is never written. */
    method HandleSubmit(username: string, password: string, confirmPassword: string) returns (signedUp: bool)
      modifies this`error, this`success, browser`local
      ensures signedUp <==> Validate(password, confirmPassword) == None && !IsTaken(GetUsers(old(browser.local)), username)
      ensures browser.local ==
        if signedUp then AfterRegister(old(browser.local), username, password) else old(browser.local)
      ensures error ==
        if Validate(password, confirmPassword).Some? then Validate(password, confirmPassword).value
        else if signedUp then "" else USERNAME_TAKEN
      ensures success == if signedUp then ACCOUNT_CREATED else ""
    {
      error := "";
      success := "";
      if |password| < MIN_PASSWORD_LENGTH {
        error := PASSWORD_TOO_SHORT;
        return false;
      }
      if password != confirmPassword {
        error := PASSWORDS_DIFFER;
        return false;
      }
      var wasSaved := SaveUser(browser, username, password);
      if wasSaved {
        success := ACCOUNT_CREATED;
      } else {
        error := USERNAME_TAKEN;
      }
      signedUp := wasSaved;
    }
  }
}
