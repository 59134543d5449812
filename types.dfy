/** The records the application stores: a signed-in user and a note.
    Ids and timestamps are strings the caller supplies (the application
    derives them from the clock). */
module Types {

  datatype User = User(username: string)

  datatype Note = Note(
    id: string,
    title: string,
    content: string,
    createdAt: string,
    updatedAt: string)
}
