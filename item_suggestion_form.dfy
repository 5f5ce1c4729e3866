/**
 * The participant's "suggest an item" form
 * (components/item-suggestion-form.tsx): a draft item, a name/unit gate,
 * the request body and the reset after a successful request.
 */
module ItemSuggestionForm {

  import opened Wrappers
  import opened Strings
  import opened Types

  /** The form fields. */
  datatype SuggestionDraft = SuggestionDraft(
    name: string,
    baseAmount: real,
    unit: string,
    category: Category,
    perPerson: bool,
    reason: string)

  /** The initial and the reset state of the form. */
  const DefaultDraft := SuggestionDraft("", 1.0, "", Food, false, "")

  /** The gate of `handleSubmit`: name and unit are both non-blank after trimming. */
  predicate Complete(d: SuggestionDraft) {
    !IsBlank(d.name) && !IsBlank(d.unit)
  }

  /** The gate looks at the name and the unit and at nothing else. */
  lemma OnlyNameAndUnitChecked(d: SuggestionDraft, e: SuggestionDraft)
    requires d.name == e.name && d.unit == e.unit
    ensures Complete(d) <==> Complete(e)
  {
  }

  /** The defaults themselves cannot be sent. */
  lemma DefaultsIncomplete()
    ensures !Complete(DefaultDraft)
  {
  }

  /** The request body: the user's id and name followed by every form field. */
  datatype SuggestionPayload = SuggestionPayload(
    participantId: string,
    participantUsername: string,
    name: string,
    baseAmount: real,
    unit: string,
    category: Category,
    perPerson: bool,
    reason: string)

  function MakePayload(user: User, d: SuggestionDraft): (p: SuggestionPayload)
    ensures p.participantId == user.id && p.participantUsername == user.username
  {
    SuggestionPayload(user.id, user.username, d.name, d.baseAmount, d.unit, d.category, d.perPerson, d.reason)
  }

  /** The form fields a payload carries. */
  function DraftOf(p: SuggestionPayload): SuggestionDraft {
    SuggestionDraft(p.name, p.baseAmount, p.unit, p.category, p.perPerson, p.reason)
  }

  /** The payload carries every form field unchanged. */
  lemma PayloadKeepsDraft(user: User, d: SuggestionDraft)
    ensures DraftOf(MakePayload(user, d)) == d
  {
  }

  class SuggestionFormState {
    var draft: SuggestionDraft
    var showForm: bool

    constructor ()
      ensures draft == DefaultDraft && !showForm
    {
      draft := DefaultDraft;
      showForm := false;
    }

    /** The "Suggest Item" button. */
    method Open()
      modifies this
      ensures showForm && draft == old(draft)
    {
      showForm := true;
    }

    /** The "Cancel" button: the draft is kept for the next time. */
    method Cancel()
      modifies this
      ensures !showForm && draft == old(draft)
    {
      showForm := false;
    }

    /** A field input. */
    method Edit(d: SuggestionDraft)
      modifies this
      ensures draft == d && showForm == old(showForm)
    {
      draft := d;
    }

    /**
     * `handleSubmit` with `ok` the outcome of the request: no user or an
     * incomplete draft sends nothing and changes nothing; after a successful
     * request the form is reset and hidden, after a failed one it stays.
     */
    method HandleSubmit(user: Option<User>, ok: bool) returns (request: Option<SuggestionPayload>)
      modifies this
      ensures request.Some? <==> user.Some? && Complete(old(draft))
      ensures request.Some? ==> request.value == MakePayload(user.value, old(draft))
      ensures request.Some? && ok ==> draft == DefaultDraft && !showForm
      ensures request.None? || !ok ==> draft == old(draft) && showForm == old(showForm)
    {
      if user.None? {
        return None;
      }
      if IsBlank(draft.name) || IsBlank(draft.unit) {
        return None;
      }
      request := Some(MakePayload(user.value, draft));
      if ok {
        draft := DefaultDraft;
        showForm := false;
      }
    }
  }
}
