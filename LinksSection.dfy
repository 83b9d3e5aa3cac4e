/**
 * The quick-links dialog (src/components/orga-note/LinksSection.tsx): the form state the
 * handlers update, and the calls they make to the parent's `onSaveLink` / `onDeleteLink`.
 * A call is returned as a value; what the parent does with it is not part of this model.
 * URL validity (the URL Standard's parser behind `new URL`) and the `confirm` answer are inputs.
 */
module LinksSection {
  import opened Wrappers
  import opened JsString
  import opened NoteTypes

  /** The arguments of one `onSaveLink(name, url, id?)` call; `id` is absent when adding. */
  datatype SaveLinkCall = SaveLinkCall(name: string, url: string, id: Option<string>)

  /** How a save attempt ends: refused for a blank field, refused for a bad URL, or saved. */
  datatype SaveLinkOutcome = EmptyField | InvalidUrl | Saved(call: SaveLinkCall)

  /** `editingLink?.id`. */
  function EditedId(editing: Option<LinkItem>): (id: Option<string>)
    ensures id.Some? <==> editing.Some?
    ensures editing.Some? ==> id.value == editing.value.id
  {
    match editing
    case Some(link) => Some(link.id)
    case None => None
  }

  /** The state of the add/edit dialog. */
  class LinkDialog {
    var showAddDialog: bool
    var editingLink: Option<LinkItem>
    var newLinkName: string
    var newLinkUrl: string

    /** The form as `resetForm` leaves it. */
    predicate FormCleared()
      reads this
    {
      newLinkName == "" && newLinkUrl == "" && editingLink == None
    }

    /**
     * Every path that closes the dialog resets the form, and the fields can only be typed
     * into while it is open, so a closed dialog always holds an empty form.
     */
    ghost predicate Valid()
      reads this
    {
      !showAddDialog ==> FormCleared()
    }

    constructor ()
      ensures Valid() && !showAddDialog && FormCleared()
    {
      showAddDialog := false;
      editingLink := None;
      newLinkName := "";
      newLinkUrl := "";
    }

    /** `resetForm`: empty name and URL, nothing being edited; the dialog flag is untouched. */
    method ResetForm()
      modifies this
      ensures FormCleared() && showAddDialog == old(showAddDialog)
    {
      newLinkName := "";
      newLinkUrl := "";
      editingLink := None;
    }

    /** The name field's `onChange`; the field exists only inside the open dialog. */
    method SetName(name: string)
      requires Valid() && showAddDialog
      modifies this
      ensures Valid() && newLinkName == name
      ensures showAddDialog && newLinkUrl == old(newLinkUrl) && editingLink == old(editingLink)
    {
      newLinkName := name;
    }

    /** The URL field's `onChange`; the field exists only inside the open dialog. */
    method SetUrl(url: string)
      requires Valid() && showAddDialog
      modifies this
      ensures Valid() && newLinkUrl == url
      ensures showAddDialog && newLinkName == old(newLinkName) && editingLink == old(editingLink)
    {
      newLinkUrl := url;
    }

    /**
     * `handleInternalSaveLink`. A blank name or URL is refused first; then the URL as typed
     * (untrimmed) must parse. Only then is `onSaveLink` called, once, with the trimmed name,
     * the trimmed URL and the edited link's id, after which the form is reset and the dialog
     * closed. A refusal changes nothing.
     */
    method SaveLink(urlParses: string -> bool) returns (outcome: SaveLinkOutcome)
      requires Valid()
      modifies this
      ensures Valid()
      ensures outcome == EmptyField <==> AllWhitespace(old(newLinkName)) || AllWhitespace(old(newLinkUrl))
      ensures outcome == InvalidUrl <==>
                !AllWhitespace(old(newLinkName)) && !AllWhitespace(old(newLinkUrl)) && !urlParses(old(newLinkUrl))
      ensures outcome.Saved? ==>
                outcome.call == SaveLinkCall(Trim(old(newLinkName)), Trim(old(newLinkUrl)), EditedId(old(editingLink)))
      ensures outcome.Saved? ==> outcome.call.name != "" && Trimmed(outcome.call.name)
      ensures outcome.Saved? ==> outcome.call.url != "" && Trimmed(outcome.call.url)
      ensures outcome.Saved? ==> FormCleared() && !showAddDialog
      ensures !outcome.Saved? ==> unchanged(this)
    {
      if Trim(newLinkName) == "" || Trim(newLinkUrl) == "" {
        return EmptyField;
      }
      if !urlParses(newLinkUrl) {
        return InvalidUrl;
      }
      outcome := Saved(SaveLinkCall(Trim(newLinkName), Trim(newLinkUrl), EditedId(editingLink)));
      ResetForm();
      showAddDialog := false;
    }

    /** `handleInternalDeleteLink`: `onDeleteLink(linkId)` only when the user confirms. */
    method DeleteLink(linkId: string, confirmed: bool) returns (deleted: Option<string>)
      ensures deleted.Some? <==> confirmed
      ensures deleted.Some? ==> deleted.value == linkId
    {
      if !confirmed {
        return None;
      }
      deleted := Some(linkId);
    }

    /** `handleEditLink`: load the link into the form, remember it, open the dialog. */
    method EditLink(link: LinkItem)
      modifies this
      ensures Valid() && showAddDialog
      ensures editingLink == Some(link) && newLinkName == link.name && newLinkUrl == link.url
    {
      editingLink := Some(link);
      newLinkName := link.name;
      newLinkUrl := link.url;
      showAddDialog := true;
    }

    /** `openDialog`: an empty form in an open dialog ("Add Link"). */
    method OpenDialog()
      modifies this
      ensures Valid() && showAddDialog && FormCleared()
    {
      ResetForm();
      showAddDialog := true;
    }

    /** The dialog's `onOpenChange`: closing it (Cancel, Escape, outside click) resets the form. */
    method OpenChange(isOpen: bool)
      requires Valid()
      modifies this
      ensures Valid() && showAddDialog == isOpen
      ensures !isOpen ==> FormCleared()
      ensures isOpen ==> newLinkName == old(newLinkName) && newLinkUrl == old(newLinkUrl)
                         && editingLink == old(editingLink)
    {
      showAddDialog := isOpen;
      if !isOpen {
        ResetForm();
      }
    }
  }
}
