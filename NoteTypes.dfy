/** The entities the workspace persists (src/types/note.ts). */
module NoteTypes {

  /** A saved note ("project file"); `lastModified` is a millisecond timestamp. */
  datatype SavedNote = SavedNote(id: string, name: string, content: string, lastModified: int)

  /** One entry of the to-do list. */
  datatype Task = Task(id: string, text: string, completed: bool)

  /** One quick link: a display name and the address it opens. */
  datatype LinkItem = LinkItem(id: string, name: string, url: string)
}
