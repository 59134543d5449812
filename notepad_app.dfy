/** The note editor of a signed-in user: the list computations behind its
    handlers, and the component state they update. Every change to the list
    is written back to the durable store as a whole. */
module NotepadFlow {
  import opened Wrappers
  import opened Types
  import opened WebStorage
  import opened StorageService

  const UNTITLED_TITLE: string := "Untitled Note"

  /** A note as edited: new title, content and modification time; id and
      creation time stay. */
  function Edited(note: Note, title: string, content: string, now: string): (edited: Note)
    ensures edited.id == note.id && edited.createdAt == note.createdAt
    ensures edited.title == title && edited.content == content && edited.updatedAt == now
  {
    note.(title := title, content := content, updatedAt := now)
  }

  /** The `map` of handleNoteUpdate: every note with the id is edited, the
      rest are kept, positions do not move. */
  function UpdateNotes(notes: seq<Note>, id: string, title: string, content: string, now: string): (r: seq<Note>)
    ensures |r| == |notes|
    ensures forall i :: 0 <= i < |notes| ==>
      r[i] == if notes[i].id == id then Edited(notes[i], title, content, now) else notes[i]
  {
    if notes == [] then []
    else
      [if notes[0].id == id then Edited(notes[0], title, content, now) else notes[0]]
        + UpdateNotes(notes[1..], id, title, content, now)
  }

  /** The `filter` of handleNoteDelete: keeps the notes whose id differs. */
  function DeleteNotes(notes: seq<Note>, id: string): (r: seq<Note>)
    ensures |r| <= |notes|
    ensures forall n :: n in r <==> n in notes && n.id != id
    ensures forall n :: multiset(r)[n] == if n.id == id then 0 else multiset(notes)[n]
  {
    if notes == [] then []
    else
      assert notes == [notes[0]] + notes[1..];
      (if notes[0].id == id then [] else [notes[0]]) + DeleteNotes(notes[1..], id)
  }

  /** `a` is `b` with some elements left out and the rest in order. */
  predicate IsSubsequence(a: seq<Note>, b: seq<Note>)
    decreases |b|
  {
    a == [] || (b != [] && ((a[0] == b[0] && IsSubsequence(a[1..], b[1..])) || IsSubsequence(a, b[1..])))
  }

  /** Deleting keeps the surviving notes in their original relative order. */
  lemma {:induction false} DeleteKeepsOrder(notes: seq<Note>, id: string)
    ensures IsSubsequence(DeleteNotes(notes, id), notes)
    decreases |notes|
  {
    if notes != [] {
      DeleteKeepsOrder(notes[1..], id);
      var rest := DeleteNotes(notes[1..], id);
      if notes[0].id == id {
        assert DeleteNotes(notes, id) == rest;
      } else {
        assert DeleteNotes(notes, id) == [notes[0]] + rest;
        assert ([notes[0]] + rest)[1..] == rest;
      }
    }
  }

  /** The first note left after a delete is the first note of the old list
      whose id differs. */
  lemma {:induction false} DeleteFirstSurvivor(notes: seq<Note>, id: string)
    requires DeleteNotes(notes, id) != []
    ensures exists k :: (0 <= k < |notes| && notes[k] == DeleteNotes(notes, id)[0]
      && notes[k].id != id && forall j :: 0 <= j < k ==> notes[j].id == id)
    decreases |notes|
  {
    if notes[0].id != id {
      assert DeleteNotes(notes, id)[0] == notes[0];
    } else {
      assert DeleteNotes(notes, id) == DeleteNotes(notes[1..], id);
      DeleteFirstSurvivor(notes[1..], id);
      var k :| 0 <= k < |notes[1..]| && notes[1..][k] == DeleteNotes(notes[1..], id)[0]
        && notes[1..][k].id != id && forall j :: 0 <= j < k ==> notes[1..][j].id == id;
      assert notes[k + 1] == DeleteNotes(notes, id)[0];
      assert forall j :: 0 <= j < k + 1 ==> notes[j].id == id by {
        forall j | 0 <= j < k + 1 ensures notes[j].id == id {
          if j > 0 { assert notes[j] == notes[1..][j - 1]; }
        }
      }
    }
  }

  /** The `find` behind activeNote: the first note with the id, if any. A
      missing active id matches nothing. */
  function FindNote(notes: seq<Note>, id: Option<string>): (r: Option<Note>)
    ensures r.Some? <==> id.Some? && exists i :: 0 <= i < |notes| && notes[i].id == id.value
    ensures r.Some? ==> exists i :: (0 <= i < |notes| && notes[i] == r.value && r.value.id == id.value
      && forall j :: 0 <= j < i ==> notes[j].id != id.value)
  {
    if id.None? || notes == [] then None
    else if notes[0].id == id.value then Some(notes[0])
    else
      var r := FindNote(notes[1..], id);
      assert r.Some? ==> exists i :: (0 <= i < |notes| && notes[i] == r.value && r.value.id == id.value
        && forall j :: 0 <= j < i ==> notes[j].id != id.value) by {
        if r.Some? {
          var i :| 0 <= i < |notes[1..]| && notes[1..][i] == r.value && r.value.id == id.value
            && forall j :: 0 <= j < i ==> notes[1..][j].id != id.value;
          assert notes[i + 1] == r.value;
          forall j | 0 <= j < i + 1 ensures notes[j].id != id.value {
            if j > 0 { assert notes[j] == notes[1..][j - 1]; }
          }
        }
      }
      assert (exists i :: 0 <= i < |notes| && notes[i].id == id.value)
         ==> exists i :: 0 <= i < |notes[1..]| && notes[1..][i].id == id.value by {
        if exists i :: 0 <= i < |notes| && notes[i].id == id.value {
          var i :| 0 <= i < |notes| && notes[i].id == id.value;
          assert notes[1..][i - 1].id == id.value;
        }
      }
      r
  }

  /** Making the first note active shows the first note: so after the
      active note is deleted, the editor shows the first survivor. */
  lemma FindFirst(notes: seq<Note>)
    requires notes != []
    ensures FindNote(notes, Some(notes[0].id)) == Some(notes[0])
  {
  }

  /** Deleting one id does not change which note another id finds. */
  lemma {:induction false} DeleteKeepsOtherLookups(notes: seq<Note>, id: string, other: string)
    requires other != id
    ensures FindNote(DeleteNotes(notes, id), Some(other)) == FindNote(notes, Some(other))
    decreases |notes|
  {
    if notes != [] {
      DeleteKeepsOtherLookups(notes[1..], id, other);
      var rest := DeleteNotes(notes[1..], id);
      if notes[0].id == id {
        assert DeleteNotes(notes, id) == rest;
        assert FindNote(notes, Some(other)) == FindNote(notes[1..], Some(other));
      } else {
        var kept := [notes[0]] + rest;
        assert DeleteNotes(notes, id) == kept;
        assert kept[0] == notes[0] && kept[1..] == rest;
      }
    }
  }

  /** Submitting the same title and content twice leaves what one submit
      leaves, stamped with the later time. */
  lemma {:induction false} UpdateTwice(notes: seq<Note>, id: string, title: string, content: string, now1: string, now2: string)
    ensures UpdateNotes(UpdateNotes(notes, id, title, content, now1), id, title, content, now2)
         == UpdateNotes(notes, id, title, content, now2)
  {
    var once := UpdateNotes(notes, id, title, content, now1);
    var twice := UpdateNotes(once, id, title, content, now2);
    var direct := UpdateNotes(notes, id, title, content, now2);
    forall i | 0 <= i < |notes| ensures twice[i] == direct[i] {
      assert once[i].id == notes[i].id;
    }
  }

  /** The editor's component state. */
  class NotepadApp {
    const user: User
    const browser: Browser
    var notes: seq<Note>
    var activeNoteId: Option<string>

    /** The list on screen is the list in the durable store. */
    ghost predicate Valid()
      reads this, browser
    {
      notes == GetNotesForUser(browser.local, user.username)
    }

    /** Mounting: empty state, then the load effect. */
    constructor (user: User, browser: Browser)
      ensures this.user == user && this.browser == browser
      ensures notes == GetNotesForUser(browser.local, user.username)
      ensures activeNoteId == if notes == [] then None else Some(notes[0].id)
      ensures Valid()
    {
      this.user := user;
      this.browser := browser;
      notes := [];
      activeNoteId := None;
      new;
      Load();
    }

    /** The load effect: the stored list, and its first note active when
        there is one. */
    method Load()
      modifies this`notes, this`activeNoteId
      ensures notes == GetNotesForUser(browser.local, user.username)
      ensures activeNoteId == if notes == [] then old(activeNoteId) else Some(notes[0].id)
      ensures Valid()
    {
      var userNotes := GetNotesForUser(browser.local, user.username);
      notes := userNotes;
      if |userNotes| > 0 {
        activeNoteId := Some(userNotes[0].id);
      }
    }

    /** saveNotes: writes the list under this user's key. */
    method SaveNotes(updatedNotes: seq<Note>)
      modifies browser`local
      ensures browser.local == old(browser.local)[NotesKey(user.username) := NotesDoc(updatedNotes)]
      ensures GetNotesForUser(browser.local, user.username) == updatedNotes
    {
      SaveNotesForUser(browser, user.username, updatedNotes);
      NotesRoundTrip(old(browser.local), user.username, updatedNotes);
    }

    /** handleNewNote: a blank note in front, made active, and saved. */
    method NewNote(id: string, now: string)
      requires Valid()
      modifies this`notes, this`activeNoteId, browser`local
      ensures Valid()
      ensures notes == [Note(id, UNTITLED_TITLE, "", now, now)] + old(notes)
      ensures activeNoteId == Some(id)
      ensures browser.local == old(browser.local)[NotesKey(user.username) := NotesDoc(notes)]
    {
      var newNote := Note(id, UNTITLED_TITLE, "", now, now);
      var updatedNotes := [newNote] + notes;
      notes := updatedNotes;
      activeNoteId := Some(newNote.id);
      SaveNotes(updatedNotes);
    }

    /** handleNoteSelect: any id is accepted, the list is not touched. */
    method Select(id: string)
      requires Valid()
      modifies this`activeNoteId
      ensures Valid()
      ensures activeNoteId == Some(id)
    {
      activeNoteId := Some(id);
    }

    /** handleNoteUpdate: edits the notes with the id and saves the list. */
    method Update(id: string, title: string, content: string, now: string)
      requires Valid()
      modifies this`notes, browser`local
      ensures Valid()
      ensures notes == UpdateNotes(old(notes), id, title, content, now)
      ensures browser.local == old(browser.local)[NotesKey(user.username) := NotesDoc(notes)]
    {
      var updatedNotes := UpdateNotes(notes, id, title, content, now);
      notes := updatedNotes;
      SaveNotes(updatedNotes);
    }

    /** handleNoteDelete: drops the notes with the id, re-picks the active
        note if it was the one deleted, and saves the list. */
    method Delete(id: string)
      requires Valid()
      modifies this`notes, this`activeNoteId, browser`local
      ensures Valid()
      ensures notes == DeleteNotes(old(notes), id)
      ensures activeNoteId ==
        if old(activeNoteId) == Some(id) then (if notes == [] then None else Some(notes[0].id))
        else old(activeNoteId)
      ensures browser.local == old(browser.local)[NotesKey(user.username) := NotesDoc(notes)]
    {
      var updatedNotes := DeleteNotes(notes, id);
      notes := updatedNotes;
      if activeNoteId == Some(id) {
        activeNoteId := if |updatedNotes| > 0 then Some(updatedNotes[0].id) else None;
      }
      SaveNotes(updatedNotes);
    }

    /** activeNote: the note being edited. */
    function ActiveNote(): (r: Option<Note>)
      reads this
      ensures r.Some? ==> r.value in notes && activeNoteId == Some(r.value.id)
    {
      FindNote(notes, activeNoteId)
    }
  }
}
