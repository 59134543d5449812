/** The browser's two Web Storage areas, as seen by the application.
    Both map string keys to stored text. An entry whose text parses to a
    registry, a note list or a user is represented by that document, so that
    decoding what was encoded gives the document back, whoever wrote it.
    `Text` stands only for the empty string and for text that does not
    parse; readers turn it into their default. */
module WebStorage {
  import opened Types

  datatype Stored =
    | Text(raw: string)
    | UsersDoc(users: map<string, string>)
    | NotesDoc(notes: seq<Note>)
    | UserDoc(user: User)

  /** `local` is the durable per-origin store (registry and notes),
      `session` the per-tab store holding the signed-in user. */
  class Browser {
    var local: map<string, Stored>
    var session: map<string, Stored>

    constructor (local: map<string, Stored>, session: map<string, Stored>)
      ensures this.local == local && this.session == session
    {
      this.local := local;
      this.session := session;
    }
  }
}
