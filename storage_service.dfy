/** The durable store: the user registry under one key and each user's
    note list under a key of its own. */
module StorageService {
  import opened Types
  import opened WebStorage

  const USERS_KEY: string := "notepad_users"
  const NOTES_KEY_PREFIX: string := "notepad_notes_"

  /** The key of a user's note list. */
  function NotesKey(username: string): (key: string)
    ensures |key| == |NOTES_KEY_PREFIX| + |username|
    ensures key[..|NOTES_KEY_PREFIX|] == NOTES_KEY_PREFIX && key[|NOTES_KEY_PREFIX|..] == username
  {
    NOTES_KEY_PREFIX + username
  }

  /** Different users never share a note key. */
  lemma {:induction false} NotesKeyInjective(a: string, b: string)
    ensures NotesKey(a) == NotesKey(b) <==> a == b
  {
    if NotesKey(a) == NotesKey(b) {
      assert a == NotesKey(a)[|NOTES_KEY_PREFIX|..];
      assert b == NotesKey(b)[|NOTES_KEY_PREFIX|..];
    }
  }

  /** No note key is the registry key: they part at their ninth character. */
  lemma NotesKeyIsNotUsersKey(username: string)
    ensures NotesKey(username) != USERS_KEY
  {
    assert NotesKey(username)[8] == 'n';
    assert USERS_KEY[8] == 'u';
  }

  /** getUsers: the registry, or the empty registry when its entry is
      missing or does not decode. */
  function GetUsers(storage: map<string, Stored>): (users: map<string, string>)
    ensures USERS_KEY !in storage ==> users == map[]
    ensures USERS_KEY in storage && !storage[USERS_KEY].UsersDoc? ==> users == map[]
  {
    if USERS_KEY in storage && storage[USERS_KEY].UsersDoc? then storage[USERS_KEY].users else map[]
  }

  /** `users[username]` is truthy: the name is present with a non-empty password. */
  predicate IsTaken(users: map<string, string>, username: string): (taken: bool)
    ensures taken ==> username in users
    ensures username in users && users[username] == "" ==> !taken
  {
    username in users && users[username] != ""
  }

  /** The durable store once `username` has been registered with `password`. */
  function AfterRegister(storage: map<string, Stored>, username: string, password: string): (after: map<string, Stored>)
    ensures after.Keys == storage.Keys + {USERS_KEY}
    ensures forall key :: key in storage && key != USERS_KEY ==> after[key] == storage[key]
    ensures GetUsers(after) == GetUsers(storage)[username := password]
  {
    storage[USERS_KEY := UsersDoc(GetUsers(storage)[username := password])]
  }

  /** saveUser: registers the user unless the name is taken. */
  method SaveUser(browser: Browser, username: string, password: string) returns (saved: bool)
    modifies browser`local
    ensures saved <==> !IsTaken(GetUsers(old(browser.local)), username)
    ensures browser.local == if saved then AfterRegister(old(browser.local), username, password) else old(browser.local)
  {
    var users := GetUsers(browser.local);
    if IsTaken(users, username) {
      return false;
    }
    users := users[username := password];
    browser.local := browser.local[USERS_KEY := UsersDoc(users)];
    return true;
  }

  /** After registering, the registry maps the name to the password and keeps
      every other entry; no user's note list changes. */
  lemma RegisterEffect(storage: map<string, Stored>, username: string, password: string, owner: string)
    ensures var users := GetUsers(AfterRegister(storage, username, password));
      username in users && users[username] == password &&
      (forall other :: other != username ==>
        (other in users <==> other in GetUsers(storage)) &&
        (other in users ==> users[other] == GetUsers(storage)[other]))
    ensures GetNotesForUser(AfterRegister(storage, username, password), owner) == GetNotesForUser(storage, owner)
  {
    NotesKeyIsNotUsersKey(owner);
  }

  /** A name whose entry holds the empty password is free: registering it
      succeeds and overwrites the entry with the new password. */
  lemma EmptyPasswordEntryIsFree(storage: map<string, Stored>, username: string, password: string)
    requires username in GetUsers(storage) && GetUsers(storage)[username] == ""
    ensures !IsTaken(GetUsers(storage), username)
    ensures GetUsers(AfterRegister(storage, username, password))[username] == password
  {
  }

  /** getNotesForUser: the user's notes, or none when the entry is missing or
      does not decode. */
  function GetNotesForUser(storage: map<string, Stored>, username: string): (notes: seq<Note>)
    ensures NotesKey(username) !in storage ==> notes == []
    ensures NotesKey(username) in storage && !storage[NotesKey(username)].NotesDoc? ==> notes == []
  {
    var key := NotesKey(username);
    if key in storage && storage[key].NotesDoc? then storage[key].notes else []
  }

  /** saveNotesForUser: replaces the user's whole note list. */
  method SaveNotesForUser(browser: Browser, username: string, notes: seq<Note>)
    modifies browser`local
    ensures browser.local == old(browser.local)[NotesKey(username) := NotesDoc(notes)]
  {
    browser.local := browser.local[NotesKey(username) := NotesDoc(notes)];
  }

  /** Reading back a saved list gives that list, in order and field for field. */
  lemma NotesRoundTrip(storage: map<string, Stored>, username: string, notes: seq<Note>)
    ensures GetNotesForUser(storage[NotesKey(username) := NotesDoc(notes)], username) == notes
  {
  }

  /** Saving one user's notes leaves the registry and every other user's
      notes as they were. */
  lemma SaveNotesFrame(storage: map<string, Stored>, username: string, notes: seq<Note>, other: string)
    requires other != username
    ensures GetNotesForUser(storage[NotesKey(username) := NotesDoc(notes)], other) == GetNotesForUser(storage, other)
    ensures GetUsers(storage[NotesKey(username) := NotesDoc(notes)]) == GetUsers(storage)
  {
    NotesKeyInjective(username, other);
    NotesKeyIsNotUsersKey(username);
  }

  /** Registering a name twice: the second attempt fails and the first
      password stays. */
  method DuplicateRegistrationExample()
  {
    var browser := new Browser(map[], map[]);
    var first := SaveUser(browser, "alice", "pw12");
    assert first;
    var second := SaveUser(browser, "alice", "other");
    assert !second;
    assert GetUsers(browser.local)["alice"] == "pw12";
  }
}
