/** The top-level router: which page is shown, and the transitions between
    signed out and signed in. */
module Router {
  import opened Wrappers
  import opened Types
  import opened WebStorage
  import opened StorageService
  import opened SessionService
  import opened NotepadFlow
  import opened LoginFlow
  import opened SignupFlow

  datatype Page = LoadingScreen | Notepad(user: User) | Login | Signup

  /** The page the router renders: the loading screen wins, then a signed-in
      user's notes, then whichever form is selected. */
  function SelectPage(isLoading: bool, currentUser: Option<User>, isLoginPage: bool): (page: Page)
    ensures page == LoadingScreen <==> isLoading
    ensures page.Notepad? <==> !isLoading && currentUser.Some?
    ensures page.Notepad? ==> page.user == currentUser.value
    ensures page == Login <==> !isLoading && currentUser.None? && isLoginPage
    ensures page == Signup <==> !isLoading && currentUser.None? && !isLoginPage
  {
    if isLoading then LoadingScreen
    else if currentUser.Some? then Notepad(currentUser.value)
    else if isLoginPage then Login
    else Signup
  }

  class App {
    const browser: Browser
    var currentUser: Option<User>
    var isLoginPage: bool
    var isLoading: bool

    constructor (browser: Browser)
      ensures this.browser == browser
      ensures currentUser == None && isLoginPage && isLoading
    {
      this.browser := browser;
      currentUser := None;
      isLoginPage := true;
      isLoading := true;
    }

    /** The startup effect: restores the session user, ends loading. */
    method Startup()
      modifies this`currentUser, this`isLoading
      ensures currentUser == if GetCurrentUser(browser.session).Some? then GetCurrentUser(browser.session) else old(currentUser)
      ensures !isLoading
    {
      var user := GetCurrentUser(browser.session);
      if user.Some? {
        currentUser := user;
      }
      isLoading := false;
    }

    /** handleLogin */
    method HandleLogin(user: User)
      modifies this`currentUser
      ensures currentUser == Some(user)
    {
      currentUser := Some(user);
    }

    /** handleLogout: empties the session slot; the selected form stays. */
    method HandleLogout()
      modifies this`currentUser, browser`session
      ensures currentUser == None
      ensures browser.session == old(browser.session) - {SESSION_USER_KEY}
      ensures GetCurrentUser(browser.session) == None
    {
      ClearCurrentUser(browser);
      currentUser := None;
    }

    /** togglePage */
    method TogglePage()
      modifies this`isLoginPage
      ensures isLoginPage == !old(isLoginPage)
    {
      isLoginPage := !isLoginPage;
    }

    /** The page rendered for the current state. */
    function View(): (page: Page)
      reads this
      ensures page == LoadingScreen <==> isLoading
      ensures page.Notepad? <==> !isLoading && currentUser.Some?
      ensures page.Notepad? ==> Some(page.user) == currentUser
      ensures page == Login <==> !isLoading && currentUser.None? && isLoginPage
    {
      SelectPage(isLoading, currentUser, isLoginPage)
    }
  }

  /** Sign up, switch to the form, sign in, sign out. */
  method SignInExample()
  {
    var browser := new Browser(map[], map[]);
    var app := new App(browser);
    app.Startup();
    assert app.View() == Login;

    app.TogglePage();
    var signup := new SignupPage(browser);
    var short := signup.HandleSubmit("alice", "pw", "pw");
    assert !short && signup.error == PASSWORD_TOO_SHORT;
    var created := signup.HandleSubmit("alice", "pw12", "pw12");
    assert created && signup.error == "";
    app.TogglePage();
    assert app.View() == Login;

    var login := new LoginPage(browser);
    var wrong := login.HandleSubmit("alice", "nope");
    assert wrong == None && login.error == INVALID_CREDENTIALS;
    var ok := login.HandleSubmit("alice", "pw12");
    assert ok == Some(User("alice"));
    app.HandleLogin(ok.value);
    assert app.View() == Notepad(User("alice"));

    app.HandleLogout();
    assert app.View() == Login;
  }

  /** Write, edit and delete notes; the store follows every step. */
  method NotesExample(browser: Browser, id1: string, id2: string, t1: string, t2: string, t3: string)
    requires id1 != id2
    requires NotesKey("alice") !in browser.local
    modifies browser`local
  {
    var pad := new NotepadApp(User("alice"), browser);
    assert pad.notes == [] && pad.activeNoteId == None;
    pad.NewNote(id1, t1);
    pad.NewNote(id2, t2);
    var second := Note(id2, UNTITLED_TITLE, "", t2, t2);
    assert pad.notes == [second, Note(id1, UNTITLED_TITLE, "", t1, t1)];
    pad.Update(id1, "Shopping", "milk", t3);
    var shopping := Note(id1, "Shopping", "milk", t1, t3);
    assert pad.notes[0] == second && pad.notes[1] == shopping;
    assert pad.notes == [second, shopping];
    pad.Delete(id2);
    assert DeleteNotes([shopping], id2) == [shopping] + DeleteNotes([], id2);
    assert DeleteNotes([second, shopping], id2) == DeleteNotes([shopping], id2);
    assert pad.notes == [shopping];
    assert pad.activeNoteId == Some(id1);
    assert GetNotesForUser(browser.local, "alice") == [shopping];
  }

  /** A fresh tab of the same browser starts signed out and, once signed
      in again, shows the saved notes with the first one active. */
  method ReopenExample(browser: Browser, saved: Note)
    requires GetNotesForUser(browser.local, "alice") == [saved]
  {
    var tab := new Browser(browser.local, map[]);
    var app := new App(tab);
    app.Startup();
    assert app.View() == Login;
    app.HandleLogin(User("alice"));
    assert app.View() == Notepad(User("alice"));
    var reopened := new NotepadApp(User("alice"), tab);
    assert reopened.notes == [saved];
    FindFirst(reopened.notes);
    assert reopened.ActiveNote() == Some(saved);
  }
}
