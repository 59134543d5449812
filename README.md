# Notepad: storage, session and page logic

A model of the logic under a small browser notepad written in React. Users
register and sign in against a registry kept in the browser's durable store.
Each user edits a list of notes, and every change to the list is written back
to the store as a whole. The signed-in user is kept in a single slot of the
per-tab session store. A router picks the page to show from three state
fields.

Modules, one per source file:

- `WebStorage` (web_storage.dfy): the two storage areas as the map fields
  `local` and `session` of one `Browser` object. JSON is an abstract codec.
  An entry whose text parses to a registry, a note list or a user is that
  document (`UsersDoc`, `NotesDoc`, `UserDoc`), whoever wrote it, so decoding
  what was encoded gives the document back. `Text` stands only for the empty
  string and for text that does not parse; readers turn it into their
  default.
- `StorageService` (services/storageService.ts): the registry under
  `notepad_users` and each user's notes under `notepad_notes_<username>`.
- `SessionService` (services/sessionService.ts): the `notepad_current_user`
  slot.
- `NotepadFlow` (components/NotepadApp.tsx): the list computations behind the
  handlers (`UpdateNotes`, `DeleteNotes`, `FindNote`) and the `NotepadApp`
  class holding `notes` and `activeNoteId`. Its invariant `Valid()` says that
  the list on screen is the list in the store. Every handler keeps it, given
  that every store write succeeds (see "Left out").
- `LoginFlow` (components/LoginPage.tsx) and `SignupFlow`
  (components/SignupPage.tsx): the credential check, the ordered sign-up
  validation and the form state they set.
- `Router` (App.tsx): `currentUser`, `isLoginPage` and `isLoading`, their
  transitions, and the page selection. Three client methods
  (`SignInExample`, `NotesExample`, `ReopenExample`) drive the components
  through a whole visit and check the states along the way.

Note ids and timestamps are parameters, because the application takes them
from the clock.

Three behaviours of the code worth knowing:

- Selecting a note sets the active id even when no note has it. It is not a
  no-op for unknown ids.
- Logging out leaves `isLoginPage` as it was. It does not force the sign-in
  form.
- Sign-in needs a non-empty stored password equal to the one given. An entry
  holding the empty string counts as absent, both for sign-in and for the
  duplicate test of registration.

## Model

| member | source | states |
|---|---|---|
| `StorageService.NotesKey` | services/storageService.ts:31-40 | a user's note key is the prefix `notepad_notes_` followed by the username, nothing more |
| `StorageService.IsTaken` | services/storageService.ts:20 | the truthiness test: a taken name is in the registry, and a name whose entry is the empty string is not taken |
| `StorageService.AfterRegister` | services/storageService.ts:19-24 | the store after registering gains at most the registry key, keeps every other entry, and its registry is the old one with the name mapped to the password |
| `StorageService.NotesKeyInjective` | services/storageService.ts:31-40 | two users share a note key exactly when they are the same user |
| `StorageService.NotesKeyIsNotUsersKey` | services/storageService.ts:4-5 | no note key equals the registry key `notepad_users` |
| `StorageService.GetUsers` | services/storageService.ts:8-16 | a missing or undecodable registry entry reads as the empty registry |
| `StorageService.SaveUser` | services/storageService.ts:18-26 | returns true exactly when the name is not taken (truthy entry); then the store holds the decoded registry with the name mapped to the password; otherwise the store is unchanged |
| `StorageService.RegisterEffect` | services/storageService.ts:23-25 | after registering, the registry maps the name to the password, every other entry is kept, and no user's note list changes |
| `StorageService.EmptyPasswordEntryIsFree` | services/storageService.ts:19-25 | a name whose entry is the empty string is not taken, and registering it overwrites the entry with the new password |
| `StorageService.GetNotesForUser` | services/storageService.ts:29-37 | a missing or undecodable note entry reads as the empty list |
| `StorageService.SaveNotesForUser` | services/storageService.ts:39-41 | the store changes only at the user's note key, which then holds the whole list |
| `StorageService.NotesRoundTrip` | services/storageService.ts:31-40 | reading back a saved note list gives that list, order and fields preserved |
| `StorageService.SaveNotesFrame` | services/storageService.ts:39-41 | saving one user's notes changes neither the registry nor any other user's notes |
| `SessionService.AfterSetUser` | services/sessionService.ts:6-8 | a write to the slot adds at most the slot key and keeps every other session entry |
| `SessionService.SetCurrentUser` | services/sessionService.ts:6-8 | the session store becomes `AfterSetUser` of the old one: the slot holds the user, nothing else changes |
| `SessionService.GetCurrentUser` | services/sessionService.ts:10-17 | an empty or undecodable slot reads as no user |
| `SessionService.ClearCurrentUser` | services/sessionService.ts:20-22 | the slot is removed and nothing else in the session store changes |
| `SessionService.SetThenGet` | services/sessionService.ts:6-13 | after a write, reading the slot gives that user |
| `SessionService.ClearThenGet` | services/sessionService.ts:10-22 | after a clear, reading the slot gives no user |
| `SessionService.SecondSetOverwrites` | services/sessionService.ts:4-8 | there is one slot: after two writes the second user is current, and the store is what the second write alone leaves |
| `NotepadFlow.Edited` | components/NotepadApp.tsx:50 | an edited note keeps its id and creation time and carries the new title, content and update time |
| `NotepadFlow.UpdateNotes` | components/NotepadApp.tsx:48-51 | same length and positions; each note with the id gets the new title, content and update time with its id and creation time kept; every other note is unchanged |
| `NotepadFlow.UpdateTwice` | components/NotepadApp.tsx:48-51 | submitting the same title and content twice leaves what one submit leaves, stamped with the later time |
| `NotepadFlow.DeleteNotes` | components/NotepadApp.tsx:56-57 | a note survives exactly when its id differs, each survivor as many times as before and none of the deleted id |
| `NotepadFlow.DeleteKeepsOrder` | components/NotepadApp.tsx:57 | the survivors keep their original relative order (the result is a subsequence of the old list) |
| `NotepadFlow.DeleteFirstSurvivor` | components/NotepadApp.tsx:57-61 | the first note left after a delete is the first note of the old list whose id differs |
| `NotepadFlow.FindNote` | components/NotepadApp.tsx:65 | finds a note exactly when some note has the id; it is the first such note; no active id finds nothing |
| `NotepadFlow.FindFirst` | components/NotepadApp.tsx:59-65 | making the first note's id active shows the first note |
| `NotepadFlow.DeleteKeepsOtherLookups` | components/NotepadApp.tsx:57-65 | deleting one id does not change which note any other id finds |
| `NotepadFlow.NotepadApp.constructor` | components/NotepadApp.tsx:11-22 | on mount the list is the stored list and the first note is active, or none when the list is empty |
| `NotepadFlow.NotepadApp.Load` | components/NotepadApp.tsx:16-22 | the list becomes the stored list; the active id becomes its first note's id when the list is non-empty and is kept otherwise |
| `NotepadFlow.NotepadApp.SaveNotes` | components/NotepadApp.tsx:24-26 | writes the list under this user's key and nowhere else; it reads back unchanged |
| `NotepadFlow.NotepadApp.NewNote` | components/NotepadApp.tsx:28-41 | the list becomes a blank "Untitled Note" in front of the old list, it is active, and exactly the new list is saved |
| `NotepadFlow.NotepadApp.Select` | components/NotepadApp.tsx:43-46 | the active id becomes the given id, whether or not a note has it; list and store are untouched |
| `NotepadFlow.NotepadApp.Update` | components/NotepadApp.tsx:48-54 | the list becomes `UpdateNotes` of the old list, the active id is kept, and exactly the new list is saved |
| `NotepadFlow.NotepadApp.Delete` | components/NotepadApp.tsx:56-63 | the list becomes `DeleteNotes` of the old list; deleting the active note activates the first survivor or none; otherwise the active id is kept; exactly the new list is saved |
| `NotepadFlow.NotepadApp.ActiveNote` | components/NotepadApp.tsx:65 | the note shown is in the list and carries the active id |
| `LoginFlow.Authenticate` | components/LoginPage.tsx:21-25 | sign-in succeeds exactly when the registry holds a non-empty password for the name equal to the one given, and yields that user |
| `LoginFlow.FailuresLookAlike` | components/LoginPage.tsx:24-30 | an unknown name and a wrong password both fail the same way |
| `LoginFlow.EmptyPasswordRefused` | components/LoginPage.tsx:24 | the empty password never signs anyone in |
| `LoginFlow.RegisteredUserSignsIn` | components/LoginPage.tsx:24 | a name just registered with a non-empty password signs in with it |
| `LoginFlow.LoginPage.constructor` | components/LoginPage.tsx:15 | the form starts with no error |
| `LoginFlow.LoginPage.HandleSubmit` | components/LoginPage.tsx:17-31 | on success the error is empty, the session slot holds the user and the same user is handed on; on failure the error is "Invalid username or password." and the session is untouched; the registry is only read |
| `SignupFlow.Validate` | components/SignupPage.tsx:22-30 | passes exactly when the password has at least 4 characters and equals the confirmation; a short password reports only the length error; otherwise a mismatch reports "Passwords do not match." |
| `SignupFlow.ValidPasswordIsTaken` | components/SignupPage.tsx:22-34 | a registration that passed validation makes the name taken |
| `SignupFlow.SignupPage.constructor` | components/SignupPage.tsx:14-15 | the form starts with no error and no success message |
| `SignupFlow.SignupPage.HandleSubmit` | components/SignupPage.tsx:17-44 | registers exactly when validation passes and the name is free; the error is the validation message, or "Username is already taken.", or empty on success; the success message is set only on success; the session is never written |
| `Router.SelectPage` | App.tsx:35-53 | loading shows the loading screen; otherwise a user shows that user's notes; otherwise `isLoginPage` picks the sign-in or the sign-up form |
| `Router.App.View` | App.tsx:35-53 | the page rendered: the loading screen exactly while loading; otherwise the current user's notes when there is one; otherwise the form `isLoginPage` selects |
| `Router.App.constructor` | App.tsx:10-12 | starts with no user, the sign-in form selected, and loading |
| `Router.App.Startup` | App.tsx:14-20 | a user in the session slot becomes the current user, and loading ends |
| `Router.App.HandleLogin` | App.tsx:22-24 | the current user becomes the given user |
| `Router.App.HandleLogout` | App.tsx:26-29 | the session slot is removed and there is no current user; the selected form stays |
| `Router.App.TogglePage` | App.tsx:31-33 | flips which form is selected |

## Left out

- Rendering, styling, icons and the sidebar open/close state driven by the window width (components/NotepadApp.tsx:14, 40, 45, 67-161) are presentation.
- The clock: note ids and timestamps are parameters. The model does not claim that ids are unique, because the code does not ensure it.
- NotepadFlow.NotepadApp.NewNote: the code reads the clock twice, for `createdAt` and `updatedAt` (components/NotepadApp.tsx:33-34). The model uses one instant `now` for both.
- Store writes are assumed to succeed. In the browser `setItem` can throw (storage full or disabled), and the code does not catch it (services/storageService.ts:24, 40; services/sessionService.ts:7). Then an update or delete has already replaced the list on screen (components/NotepadApp.tsx:52-53, 58-62), so it no longer matches the store. A sign-up leaves both messages empty (components/SignupPage.tsx:34), and a sign-in never hands the user on (components/LoginPage.tsx:26). `NotepadFlow.NotepadApp.Valid` holds only because the model's writes cannot fail.
- NotepadFlow.UpdateNotes: the code reads the clock once per matching note (components/NotepadApp.tsx:50). The model gives every match the same `now`.
- JSON text is not modelled. Text that parses to a value of another shape (a number, or a note list under the registry key) has no document of its own in the model: it is read as the default, where the code would return that value.
- Logging to the console in the error paths is I/O.
- SignupFlow.SignupPage.HandleSubmit: the 2-second delay before `onSignupSuccess` (components/SignupPage.tsx:38-40) is not modelled; `signedUp` only says that the call is scheduled. That callback is `togglePage` as rendered while the sign-up form was shown, so when it fires it sets `isLoginPage` to true rather than flipping it.
- Password length counts Dafny characters; JavaScript counts UTF-16 code units, which differ only outside the Basic Multilingual Plane.
- Lookups in plain JavaScript objects that hit inherited properties (a user named `constructor`) are not modelled.
- Several tabs writing the durable store at once (last writer wins) is concurrency between browser contexts and is not modelled.
- React's hook mechanics (`useState`, `useEffect`, `useCallback`) are modelled only by the state they hold. Each handler runs to completion on the latest state.
