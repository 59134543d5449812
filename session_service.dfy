/** The session store's single slot holding the signed-in user. */
module SessionService {
  import opened Wrappers
  import opened Types
  import opened WebStorage

  const SESSION_USER_KEY: string := "notepad_current_user"

  /** The session store once `user` has been written to the slot: only the
      slot changes. */
  function AfterSetUser(session: map<string, Stored>, user: User): (after: map<string, Stored>)
    ensures after.Keys == session.Keys + {SESSION_USER_KEY}
    ensures forall key :: key in session && key != SESSION_USER_KEY ==> after[key] == session[key]
  {
    session[SESSION_USER_KEY := UserDoc(user)]
  }

  /** setCurrentUser: writes the slot. */
  method SetCurrentUser(browser: Browser, user: User)
    modifies browser`session
    ensures browser.session == AfterSetUser(old(browser.session), user)
  {
    browser.session := browser.session[SESSION_USER_KEY := UserDoc(user)];
  }

  /** getCurrentUser: the user in the slot, or none when it is empty or does
      not decode. */
  function GetCurrentUser(session: map<string, Stored>): (user: Option<User>)
    ensures SESSION_USER_KEY !in session ==> user == None
    ensures SESSION_USER_KEY in session && !session[SESSION_USER_KEY].UserDoc? ==> user == None
  {
    if SESSION_USER_KEY in session && session[SESSION_USER_KEY].UserDoc? then Some(session[SESSION_USER_KEY].user) else None
  }

  /** clearCurrentUser: empties the slot. */
  method ClearCurrentUser(browser: Browser)
    modifies browser`session
    ensures browser.session == old(browser.session) - {SESSION_USER_KEY}
  {
    browser.session := browser.session - {SESSION_USER_KEY};
  }

  lemma SetThenGet(session: map<string, Stored>, user: User)
    ensures GetCurrentUser(AfterSetUser(session, user)) == Some(user)
  {
  }

  lemma ClearThenGet(session: map<string, Stored>)
    ensures GetCurrentUser(session - {SESSION_USER_KEY}) == None
  {
  }

  /** One slot: after two writes the second user is the current one, and
      no trace of the first write is left. */
  lemma SecondSetOverwrites(session: map<string, Stored>, first: User, second: User)
    ensures GetCurrentUser(AfterSetUser(AfterSetUser(session, first), second)) == Some(second)
    ensures AfterSetUser(AfterSetUser(session, first), second) == AfterSetUser(session, second)
  {
  }
}
