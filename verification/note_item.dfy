/** One row of the note list: a thumbnail or a placeholder, the title, a
    priority badge with a label and a colour, and the note's date. The date
    shown is `Notes.DateKey`, the same one the list sorts by. */
module NoteItem {
  import opened JsValues
  import opened Notes
  import CreateScreen

  /** `PRIORITY_COLORS`: the badge colour of each known priority. */
  const PRIORITY_COLORS: map<string, string> :=
    map["high" := "#f43f5e", "medium" := "#fbbf24", "low" := "#34d399"]

  /** The badge colour of any priority `PRIORITY_COLORS` does not list. */
  const FALLBACK_COLOR: string := "#3f3f46"

  /** `getPriorityLabel`: `Alta` for `high`, `Media` for `medium`, and `Baja`
      for every other value, missing ones included. */
  function PriorityLabel(p: Option<string>): (text: string)
    ensures text == "Alta" <==> p == Some("high")
    ensures text == "Media" <==> p == Some("medium")
    ensures text == "Baja" <==> p != Some("high") && p != Some("medium")
  {
    if p == Some("high") then "Alta"
    else if p == Some("medium") then "Media"
    else "Baja"
  }

  /** `PRIORITY_COLORS[priority] || '#3f3f46'`. */
  function BadgeColor(p: Option<string>): (color: string)
    ensures p.Some? && p.value in PRIORITY_COLORS ==> color == PRIORITY_COLORS[p.value]
    ensures color == FALLBACK_COLOR <==> !(p.Some? && p.value in PRIORITY_COLORS)
  {
    var listed := if p.Some? && p.value in PRIORITY_COLORS then Some(PRIORITY_COLORS[p.value]) else None;
    Or(listed, Some(FALLBACK_COLOR)).value
  }

  /** The picture slot of a row. */
  datatype Thumbnail = Image(uri: string) | Placeholder

  /** The note's image when `imageUri` is truthy, otherwise the `IMG` placeholder. */
  function ThumbnailOf(n: Note): (t: Thumbnail)
    ensures t.Image? <==> Truthy(n.imageUri)
    ensures t.Image? ==> n.imageUri == Some(t.uri)
  {
    if Truthy(n.imageUri) then Image(n.imageUri.value) else Placeholder
  }

  /** The badge label of every chip on the new-note screen is the chip's own label. */
  lemma LabelsMatchCreateOptions()
    ensures forall i :: 0 <= i < |CreateScreen.PRIORITY_OPTIONS| ==>
              PriorityLabel(Some(CreateScreen.PRIORITY_OPTIONS[i].value))
              == CreateScreen.PRIORITY_OPTIONS[i].caption
  {
  }

  /** A note saved from the new-note screen shows the label of the chip the
      user chose, in that priority's own colour, and shows its photo. */
  lemma SavedNoteShowsChosenPriority(actions: seq<CreateScreen.Action>)
    requires CreateScreen.HandleSave(CreateScreen.Run(CreateScreen.INITIAL_FORM, actions)).Some?
    ensures var d := CreateScreen.HandleSave(CreateScreen.Run(CreateScreen.INITIAL_FORM, actions)).value;
            && (exists i :: 0 <= i < |CreateScreen.PRIORITY_OPTIONS|
                  && CreateScreen.PRIORITY_OPTIONS[i].value == d.priority
                  && PriorityLabel(Some(d.priority)) == CreateScreen.PRIORITY_OPTIONS[i].caption)
            && BadgeColor(Some(d.priority)) != FALLBACK_COLOR
            && ThumbnailOf(Note("", d.title, d.description, Some(d.imageUri), Some(d.priority), None, None))
               == Image(d.imageUri)
  {
    CreateScreen.PriorityAlwaysAnOption(actions);
    var d := CreateScreen.HandleSave(CreateScreen.Run(CreateScreen.INITIAL_FORM, actions)).value;
    var i := if d.priority == "high" then 0 else if d.priority == "medium" then 1 else 2;
    assert CreateScreen.PRIORITY_OPTIONS[i].value == d.priority;
  }
}
