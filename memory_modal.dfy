/**
 * The new-memory form: title, description, image, tags and date are collected, checked and
 * handed to the store's `addMemory`; closing a form that holds unsaved input first asks
 * for confirmation. `onClose` becomes the result `closes`, the file reader and the camera
 * arrive as the already-read data they produce, and `Math.random()` as `position`.
 */
module MemoryModal {
  import opened Wrappers
  import opened Text
  import opened Lists
  import opened Types
  import opened MemorySync
  import opened MemoryContext
  import TagEditing

  /** The form's input fields. */
  datatype FormContent = FormContent(
    title: string,
    description: string,
    image: string,
    tags: seq<string>,
    newTag: string,
    memoryDate: string)

  /** Every field as the form starts and as a reset leaves it. */
  const EmptyForm := FormContent("", "", "", [], "", "")

  /** Which close attempt the confirmation dialog interrupted. */
  datatype PendingAction = CloseAction | CancelAction

  const TitleMissing := "Please enter a title"
  const ImageMissing := "Please add an image"

  /**
   * `handleSubmit`'s checks: the alert it raises, if any. A blank title is reported before a
   * missing image.
   */
  function SubmitCheck(c: FormContent): (r: Option<string>)
    ensures r.None? <==> Trim(c.title) != [] && c.image != []
    ensures Trim(c.title) == [] ==> r == Some(TitleMissing)
    ensures Trim(c.title) != [] && c.image == [] ==> r == Some(ImageMissing)
  {
    if Trim(c.title) == [] then Some(TitleMissing)
    else if c.image == [] then Some(ImageMissing)
    else None
  }

  /** The draft handed to `addMemory`: trimmed text, the tag list, and no date when none was picked. */
  function DraftOf(c: FormContent, position: Position): (d: MemoryDraft)
    ensures d.date.None? <==> c.memoryDate == []
    ensures d.date.Some? ==> d.date.value == c.memoryDate
    ensures d.title == Trim(c.title) && d.description == Trim(c.description)
    ensures d.tags == Some(c.tags) && d.position == Some(position) && d.image == c.image
  {
    MemoryDraft(Trim(c.title), Trim(c.description), c.image, Some(position), Some(c.tags),
                if c.memoryDate == [] then None else Some(c.memoryDate))
  }

  /** `hasUnsavedChanges`: some text field holds more than white space, or an image, tag or date is set. */
  predicate Unsaved(c: FormContent) {
    Trim(c.title) != [] || Trim(c.description) != [] || c.image != [] || |c.tags| > 0 || c.memoryDate != []
  }

  /**
   * A memory created from a form that passed the checks has a non-blank title with no
   * surrounding white space, a trimmed description, an image, and the form's tags.
   */
  lemma SubmittedMemoryShape(c: FormContent, position: Position, id: string, createdAt: Timestamp)
    requires SubmitCheck(c).None?
    ensures var m := NewMemory(DraftOf(c, position), id, createdAt);
      m.title != [] && Trim(m.title) == m.title && Trim(m.description) == m.description &&
      m.title == Trim(c.title) && m.description == Trim(c.description) &&
      m.image != [] && m.tags == Some(c.tags) && m.id == id
  {
    TrimIdempotent(c.title);
    TrimIdempotent(c.description);
  }

  /** A form that would pass the checks always counts as unsaved, so closing it asks first. */
  lemma SubmittableIsUnsaved(c: FormContent)
    ensures SubmitCheck(c).None? ==> Unsaved(c)
  {
  }

  /** The reset form has nothing to lose; a tag typed but not yet added does not count as unsaved. */
  lemma UnsavedIgnoresNewTag(c: FormContent, typed: string)
    ensures !Unsaved(EmptyForm)
    ensures Unsaved(c.(newTag := typed)) == Unsaved(c)
  {
    assert LeadingSpace("") == 0 && TrailingSpace("") == 0;
    var d := c.(newTag := typed);
    assert d.title == c.title && d.description == c.description && d.image == c.image;
    assert d.tags == c.tags && d.memoryDate == c.memoryDate;
  }

  class MemoryForm {
    var title: string
    var description: string
    var image: string
    var tags: seq<string>
    var newTag: string
    var memoryDate: string
    var showCamera: bool
    var showConfirmDialog: bool
    var pendingAction: Option<PendingAction>

    function Content(): FormContent
      reads this
    {
      FormContent(title, description, image, tags, newTag, memoryDate)
    }

    /** The tag list stays free of duplicates and of untrimmed tags. */
    ghost predicate Valid()
      reads this
    {
      NoDuplicates(tags) && TagEditing.AllTrimmed(tags)
    }

    method SetContent(c: FormContent)
      modifies this
      ensures Content() == c
      ensures showCamera == old(showCamera) && showConfirmDialog == old(showConfirmDialog)
      ensures pendingAction == old(pendingAction)
    {
      title, description, image := c.title, c.description, c.image;
      tags, newTag, memoryDate := c.tags, c.newTag, c.memoryDate;
    }

    constructor ()
      ensures Content() == EmptyForm && Valid()
      ensures !showCamera && !showConfirmDialog && pendingAction == None
    {
      title, description, image := "", "", "";
      tags, newTag, memoryDate := [], "", "";
      showCamera, showConfirmDialog, pendingAction := false, false, None;
    }

    /** `handleImageChange`: a chosen file's data URL becomes the image; no file changes nothing. */
    method ChooseImage(file: Option<string>)
      modifies this
      ensures file.Some? ==> Content() == old(Content()).(image := file.value)
      ensures file.None? ==> Content() == old(Content())
      ensures showCamera == old(showCamera) && showConfirmDialog == old(showConfirmDialog)
      ensures pendingAction == old(pendingAction) && (old(Valid()) ==> Valid())
    {
      if file.Some? {
        image := file.value;
      }
    }

    /** `startCamera`: the preview opens when access is granted; otherwise the user is alerted. */
    method StartCamera(granted: bool) returns (denied: bool)
      modifies this
      ensures denied == !granted
      ensures showCamera == (granted || old(showCamera))
      ensures Content() == old(Content()) && showConfirmDialog == old(showConfirmDialog)
      ensures pendingAction == old(pendingAction) && (old(Valid()) ==> Valid())
    {
      if granted {
        showCamera := true;
      }
      denied := !granted;
    }

    /** `stopCamera`: the preview closes. */
    method StopCamera()
      modifies this
      ensures !showCamera
      ensures Content() == old(Content()) && showConfirmDialog == old(showConfirmDialog)
      ensures pendingAction == old(pendingAction) && (old(Valid()) ==> Valid())
    {
      showCamera := false;
    }

    /** `capturePhoto`: a drawn frame becomes the image and the camera stops; no frame changes nothing. */
    method CapturePhoto(frame: Option<string>)
      modifies this
      ensures frame.Some? ==> Content() == old(Content()).(image := frame.value) && !showCamera
      ensures frame.None? ==> Content() == old(Content()) && showCamera == old(showCamera)
      ensures showConfirmDialog == old(showConfirmDialog)
      ensures pendingAction == old(pendingAction) && (old(Valid()) ==> Valid())
    {
      if frame.Some? {
        image := frame.value;
        showCamera := false;
      }
    }

    /** `handleAddTag` on the form's tag list. */
    method AddTag()
      modifies this
      ensures (tags, newTag) == TagEditing.AddTag(old(tags), old(newTag))
      ensures title == old(title) && description == old(description) && image == old(image)
      ensures memoryDate == old(memoryDate) && showCamera == old(showCamera)
      ensures showConfirmDialog == old(showConfirmDialog) && pendingAction == old(pendingAction)
      ensures old(Valid()) ==> Valid()
    {
      var r := TagEditing.AddTag(tags, newTag);
      tags, newTag := r.0, r.1;
    }

    /** `handleRemoveTag` on the form's tag list. */
    method RemoveTag(tag: string)
      modifies this
      ensures tags == TagEditing.RemoveTag(old(tags), tag)
      ensures Content() == old(Content()).(tags := tags)
      ensures showCamera == old(showCamera) && showConfirmDialog == old(showConfirmDialog)
      ensures pendingAction == old(pendingAction) && (old(Valid()) ==> Valid())
    {
      tags := TagEditing.RemoveTag(tags, tag);
    }

    /**
     * `handleSubmit`: a form failing the checks raises the alert and changes nothing;
     * otherwise the draft is added to the store (only the synchronous, optimistic part of
     * `addMemory` runs before the form resets), every field is cleared and the form closes.
     */
    method Submit(store: MemoryStore, now: nat, createdAt: Timestamp, position: Position)
      returns (alert: Option<string>, closes: bool)
      modifies this, store
      ensures alert == SubmitCheck(old(Content()))
      ensures closes <==> alert.None?
      ensures alert.Some? ==> Content() == old(Content()) && unchanged(store)
      ensures alert.None? ==>
        Content() == EmptyForm &&
        store.memories == old(store.memories) +
          [NewMemory(DraftOf(old(Content()), position),
                     if store.HasSession() then TempMemoryId(now) else OfflineMemoryId(now), createdAt)] &&
        store.connections == old(store.connections) && store.darkMode == old(store.darkMode) &&
        store.token == old(store.token) && store.cache == old(store.cache)
      ensures (alert.None? && old(store.Valid()) &&
               !HasId(old(store.memories), store.memories[|store.memories| - 1].id)) ==> store.Valid()
      ensures showCamera == old(showCamera) && showConfirmDialog == old(showConfirmDialog)
      ensures pendingAction == old(pendingAction) && (old(Valid()) ==> Valid())
    {
      alert := SubmitCheck(Content());
      if alert.Some? {
        closes := false;
        return;
      }
      var _ := store.BeginAddMemory(DraftOf(Content(), position), now, createdAt);
      SetContent(EmptyForm);
      closes := true;
    }

    /**
     * `handleCancel`: unsaved input opens the confirmation dialog; otherwise the camera stops,
     * the fields reset and the form closes. The form never closes over unsaved input.
     */
    method Cancel() returns (closes: bool)
      modifies this
      ensures closes <==> !old(Unsaved(Content()))
      ensures closes ==> (Content() == EmptyForm && !showCamera &&
                          showConfirmDialog == old(showConfirmDialog) && pendingAction == old(pendingAction))
      ensures !closes ==> (Content() == old(Content()) && showCamera == old(showCamera) &&
                           showConfirmDialog && pendingAction == Some(CancelAction))
      ensures old(Valid()) ==> Valid()
    {
      if Unsaved(Content()) {
        pendingAction := Some(CancelAction);
        showConfirmDialog := true;
        closes := false;
      } else {
        showCamera := false;
        SetContent(EmptyForm);
        closes := true;
      }
    }

    /**
     * `handleOverlayClick`: like cancelling, unsaved input opens the dialog; otherwise the form
     * closes and, unlike cancelling, keeps its fields and its camera state.
     */
    method OverlayClick() returns (closes: bool)
      modifies this
      ensures closes <==> !old(Unsaved(Content()))
      ensures Content() == old(Content()) && showCamera == old(showCamera)
      ensures closes ==> showConfirmDialog == old(showConfirmDialog) && pendingAction == old(pendingAction)
      ensures !closes ==> showConfirmDialog && pendingAction == Some(CloseAction)
      ensures old(Valid()) ==> Valid()
    {
      if Unsaved(Content()) {
        pendingAction := Some(CloseAction);
        showConfirmDialog := true;
        closes := false;
      } else {
        closes := true;
      }
    }

    /** `confirmDiscard`: the input is dropped, the camera stops, the dialog closes and so does the form. */
    method ConfirmDiscard() returns (closes: bool)
      modifies this
      ensures closes && Content() == EmptyForm
      ensures !showCamera && !showConfirmDialog && pendingAction == None && Valid()
    {
      title, description, image := "", "", "";
      tags, newTag, memoryDate := [], "", "";
      showCamera, showConfirmDialog, pendingAction, closes := false, false, None, true;
    }

    /** `cancelDiscard`: the dialog closes and the input stays. */
    method CancelDiscard()
      modifies this
      ensures !showConfirmDialog && pendingAction == None
      ensures Content() == old(Content()) && showCamera == old(showCamera)
      ensures old(Valid()) ==> Valid()
    {
      showConfirmDialog, pendingAction := false, None;
    }
  }
}
