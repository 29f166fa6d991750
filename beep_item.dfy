/** The beep card of the web UI: author, relative time, message and the guarded delete button. */
module BeepItemView {
  import opened Wrappers
  import opened Js
  import opened RelativeTime

  /** A beep as the UI receives it; an absent or null field is None. */
  datatype BeepJson = BeepJson(id: int, message: JsString, author: JsString, createdAt: int)

  /** The author shown on the card: `beep.author || 'Anonymous'`. */
  function AuthorName(beep: BeepJson): (r: string)
    ensures Falsy(beep.author) ==> r == "Anonymous"
    ensures !Falsy(beep.author) ==> r == beep.author.value
    ensures r != ""
  {
    Or(beep.author, "Anonymous")
  }

  /** What the card shows. */
  datatype Card = Card(author: string, time: string, message: JsString)

  /**
   * The card for `beep` at time `now`: a never-empty author, the sender or "Anonymous"; the
   * message as sent; and the creation time, relative under a week old, the locale date after.
   */
  function Render(beep: BeepJson, now: int, toLocaleDateString: int -> string): (c: Card)
    ensures c.author == AuthorName(beep) && c.message == beep.message
    ensures c.author != "" && (c.author == "Anonymous" || Some(c.author) == beep.author)
    ensures c.time == FormatDate(beep.createdAt, now, toLocaleDateString)
    ensures now - beep.createdAt < WeekMs ==> RelativeText(c.time)
    ensures WeekMs <= now - beep.createdAt ==> c.time == toLocaleDateString(beep.createdAt)
  {
    Card(AuthorName(beep), FormatDate(beep.createdAt, now, toLocaleDateString), beep.message)
  }

  const DeleteQuestion := "Are you sure you want to delete this beep?"

  /** `handleDelete`: `onDelete(beep.id)` only when the user confirms. */
  function HandleDelete(beep: BeepJson, confirm: string -> bool): (r: Option<int>)
    ensures r.Some? <==> confirm(DeleteQuestion)
    ensures r.Some? ==> r.value == beep.id
  {
    if confirm(DeleteQuestion) then Some(beep.id) else None
  }
}
