/** The note record the screens read, and the date each note is shown and
    sorted by. The note store that creates and persists notes is not part of
    this model; its records are taken as given. */
module Notes {
  import opened JsValues

  /** A stored study note. Fields the store may leave out (`null` or
      `undefined`) are optional; dates are kept as the stored text. */
  datatype Note = Note(
    id: string,
    title: string,
    description: string,
    imageUri: Option<string>,
    priority: Option<string>,
    createdAt: Option<string>,
    updatedAt: Option<string>)

  /** `note.updatedAt || note.createdAt`: the date the list sorts by and the
      list item displays. */
  function DateKey(n: Note): (d: Option<string>)
    ensures Truthy(n.updatedAt) ==> d == n.updatedAt
    ensures !Truthy(n.updatedAt) ==> d == n.createdAt
  {
    Or(n.updatedAt, n.createdAt)
  }
}
