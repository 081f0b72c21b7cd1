/** The new-note screen: a form with a title, a description, a priority chosen
    from fixed options and a photo, and the rule that decides when the draft
    may be saved. The form is a state machine driven by the user's actions;
    saving hands the draft to the note store's `addNote`, modelled here as the
    draft value that call would receive. */
module CreateScreen {
  import opened JsValues
  import opened Text

  /** One priority chip: the stored value and the label (caption) shown on it. */
  datatype PriorityOption = PriorityOption(value: string, caption: string)

  /** `PRIORITY_OPTIONS`, in the order the chips are shown. */
  const PRIORITY_OPTIONS: seq<PriorityOption> := [
    PriorityOption("high", "Alta"),
    PriorityOption("medium", "Media"),
    PriorityOption("low", "Baja")
  ]

  /** The priority a new form starts with. */
  const DEFAULT_PRIORITY: string := "medium"

  /** The shortest title, after trimming, that can be saved. */
  const MIN_TITLE_LENGTH: nat := 3

  /** The position of one of the chips. */
  type OptionIndex = i: nat | i < |PRIORITY_OPTIONS|

  /** `p` is the value of one of the chips. */
  predicate IsPriorityValue(p: string) {
    exists i: OptionIndex :: PRIORITY_OPTIONS[i].value == p
  }

  /** The form's state (`title`, `description`, `priority`, `imageUri`). */
  datatype Form = Form(title: string, description: string, priority: string, imageUri: Option<string>)

  /** The state the screen opens with. */
  const INITIAL_FORM: Form := Form("", "", DEFAULT_PRIORITY, None)

  /** What the camera returns from `takePictureAsync`; the result itself may be missing. */
  datatype Photo = Photo(uri: Option<string>)

  /** What the user can do to the form. */
  datatype Action =
    | EditTitle(title: string)
    | EditDescription(description: string)
    | ChoosePriority(option: OptionIndex)
    | TakePicture(photo: Option<Photo>)

  /** The `imageUri` update of `handleTakePicture`: only a photo with a truthy
      `uri` replaces the image; otherwise the form is left as it was. */
  function TakePictureStep(f: Form, photo: Option<Photo>): (g: Form)
    ensures g.title == f.title && g.description == f.description && g.priority == f.priority
    ensures photo.Some? && Truthy(photo.value.uri) ==> g.imageUri == photo.value.uri
    ensures !(photo.Some? && Truthy(photo.value.uri)) ==> g == f
  {
    if photo.Some? && Truthy(photo.value.uri) then f.(imageUri := photo.value.uri) else f
  }

  /** One user action. Choosing a chip stores that chip's value. */
  function Step(f: Form, a: Action): (g: Form)
    ensures a.ChoosePriority? ==> g.priority == PRIORITY_OPTIONS[a.option].value
    ensures !a.ChoosePriority? ==> g.priority == f.priority
    ensures !a.TakePicture? ==> g.imageUri == f.imageUri
    ensures a.EditTitle? ==> g == f.(title := a.title)
    ensures a.EditDescription? ==> g == f.(description := a.description)
    ensures a.ChoosePriority? ==> g == f.(priority := PRIORITY_OPTIONS[a.option].value)
  {
    match a
    case EditTitle(t) => f.(title := t)
    case EditDescription(d) => f.(description := d)
    case ChoosePriority(i) => f.(priority := PRIORITY_OPTIONS[i].value)
    case TakePicture(photo) => TakePictureStep(f, photo)
  }

  /** The form after a sequence of user actions. */
  function Run(f: Form, actions: seq<Action>): Form
    decreases |actions|
  {
    if actions == [] then f else Run(Step(f, actions[0]), actions[1..])
  }

  /** `titleIsValid`: the trimmed title is at least three long, counted as
      JavaScript counts `length`, in UTF-16 code units. Stated against the
      characterisation of trimming rather than `Trim` itself: whatever string
      the title trims to decides validity by its UTF-16 length. */
  function TitleIsValid(title: string): (valid: bool)
    ensures forall t, i :: TrimmedAt(title, t, i) ==> (valid <==> Utf16Length(t) >= MIN_TITLE_LENGTH)
    ensures valid ==> !Blank(title)
  {
    assert forall t, i :: TrimmedAt(title, t, i) ==> t == Trim(title) by {
      forall t, i | TrimmedAt(title, t, i)
        ensures t == Trim(title)
      {
        TrimUnique(title, t, i);
      }
    }
    Utf16Length(Trim(title)) >= MIN_TITLE_LENGTH
  }

  /** `canSave`: a valid title, a description with a non-space character,
      and a truthy image reference. */
  function CanSave(f: Form): (ok: bool)
    ensures ok <==> TitleIsValid(f.title) && !Blank(f.description) && Truthy(f.imageUri)
  {
    TitleIsValid(f.title) && Trim(f.description) != "" && Truthy(f.imageUri)
  }

  /** The title error is shown while the title is invalid but not empty
      (`title.length > 0`). */
  function ShowTitleError(f: Form): (shown: bool)
    ensures shown ==> !CanSave(f)
    ensures f.title == "" ==> !shown
    ensures TitleIsValid(f.title) ==> !shown
    ensures f.title != "" && !TitleIsValid(f.title) ==> shown
    ensures f.title != "" && Blank(f.title) ==> shown
  {
    !TitleIsValid(f.title) && Utf16Length(f.title) > 0
  }

  /** The argument `handleSave` passes to `addNote`. */
  datatype Draft = Draft(title: string, description: string, imageUri: string, priority: string)

  /** `handleSave`: nothing when the form cannot be saved, otherwise the
      draft, with title and description exactly as typed (not trimmed). */
  function HandleSave(f: Form): (d: Option<Draft>)
    ensures d.None? <==> !CanSave(f)
    ensures d.Some? ==>
              && d.value.title == f.title
              && d.value.description == f.description
              && Some(d.value.imageUri) == f.imageUri
              && d.value.priority == f.priority
  {
    if !CanSave(f) then None
    else Some(Draft(f.title, f.description, f.imageUri.value, f.priority))
  }

  /** White space typed around a title never changes whether it is valid. */
  lemma TitleValidityIgnoresPadding(title: string, before: string, after: string)
    requires Blank(before) && Blank(after)
    ensures TitleIsValid(before + title + after) == TitleIsValid(title)
  {
    TrimIgnoresPadding(title, before, after);
  }

  /** A saved draft has a title at least three UTF-16 units long that is not
      all white space, a description with a non-space character, and a
      non-empty image reference. */
  lemma SavedDraftIsComplete(f: Form)
    requires HandleSave(f).Some?
    ensures var d := HandleSave(f).value;
            && Utf16Length(d.title) >= MIN_TITLE_LENGTH
            && !Blank(d.title)
            && !Blank(d.description)
            && d.imageUri != ""
  {
    var d := HandleSave(f).value;
    var t := Trim(d.title);
    var i: nat :| i <= |d.title| && TrimmedAt(d.title, t, i);
    Utf16LengthSlice(d.title, i, i + |t|);
  }

  /** A title is measured as JavaScript measures it: an emoji followed by one
      letter is two characters but three UTF-16 units, so it is valid. */
  lemma EmojiTitleIsValid()
    ensures |"\U{1F600}a"| == 2
    ensures TitleIsValid("\U{1F600}a")
  {
    var s := "\U{1F600}a";
    assert s[0..0 + |s|] == s;
    assert TrimmedAt(s, s, 0);
    assert s[1..][1..] == [];
    assert Utf16Length(s) == 3;
  }

  /** Only user actions change the priority, and each sets it to a chip's
      value, so a form that starts on a chip's value stays on one. */
  lemma {:induction false} RunKeepsPriorityValue(f: Form, actions: seq<Action>)
    requires IsPriorityValue(f.priority)
    ensures IsPriorityValue(Run(f, actions).priority)
    decreases |actions|
  {
    if actions != [] {
      var g := Step(f, actions[0]);
      if actions[0].ChoosePriority? {
        var i: OptionIndex := actions[0].option;
        assert PRIORITY_OPTIONS[i].value == g.priority;
      }
      RunKeepsPriorityValue(g, actions[1..]);
    }
  }

  /** Whatever the user does on the screen, the priority is always one of
      `high`, `medium` and `low`. */
  lemma PriorityAlwaysAnOption(actions: seq<Action>)
    ensures Run(INITIAL_FORM, actions).priority in {"high", "medium", "low"}
  {
    var one: OptionIndex := 1;
    assert PRIORITY_OPTIONS[one].value == DEFAULT_PRIORITY;
    RunKeepsPriorityValue(INITIAL_FORM, actions);
    var i: OptionIndex :| PRIORITY_OPTIONS[i].value == Run(INITIAL_FORM, actions).priority;
  }
}
