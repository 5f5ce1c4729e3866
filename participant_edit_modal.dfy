/**
 * The "edit your participation" dialog
 * (components/participant-edit-modal.tsx): the form is filled from the
 * stored participant with fallbacks, the bringing-items list is edited, and
 * the form is sent to the participant's update path.
 */
module ParticipantEditModal {

  import opened Wrappers
  import opened Strings
  import opened Types
  import Seqs

  /**
   * The participant as the dialog receives it: `None` stands for a field the
   * stored document lacks (`undefined`).
   */
  datatype StoredParticipant = StoredParticipant(
    participantId: string,
    isVegetarian: Option<bool>,
    isVegan: Option<bool>,
    drinksAlcohol: Option<bool>,
    stayDuration: Option<real>,
    joinTime: Option<string>,
    suggestions: Option<string>,
    bringingItems: Option<seq<string>>)

  /** The hours used when the stored duration is missing or zero. */
  const DefaultStayDuration: real := 4.0

  /** `x || false` on an optional flag. */
  function FlagOr(b: Option<bool>): (r: bool)
    ensures r <==> b == Some(true)
  {
    b.GetOr(false)
  }

  /** `participant.stayDuration || 4`: zero is falsy and falls back too. */
  function DurationOr(d: Option<real>): (r: real)
    ensures d.Some? && d.value != 0.0 ==> r == d.value
    ensures d.None? || d.value == 0.0 ==> r == DefaultStayDuration
  {
    match d
    case Some(h) => if h != 0.0 then h else DefaultStayDuration
    case None => DefaultStayDuration
  }

  /** The initial form: stored values, `false`, `4`, `""` and `[]` where they are missing. */
  function InitialForm(p: StoredParticipant): (f: ParticipantData)
    ensures f.isVegetarian == FlagOr(p.isVegetarian) && f.isVegan == FlagOr(p.isVegan)
    ensures f.drinksAlcohol == FlagOr(p.drinksAlcohol)
    ensures f.stayDuration == DurationOr(p.stayDuration)
    ensures f.joinTime == p.joinTime.GetOr("") && f.suggestions == p.suggestions.GetOr("")
    ensures f.bringingItems == p.bringingItems.GetOr([])
  {
    ParticipantData(FlagOr(p.isVegetarian), FlagOr(p.isVegan), FlagOr(p.drinksAlcohol),
                    DurationOr(p.stayDuration), p.joinTime.GetOr(""), p.suggestions.GetOr(""),
                    p.bringingItems.GetOr([]))
  }

  /** A complete stored participant as the dialog receives it. */
  function Stored(p: Participant): StoredParticipant {
    StoredParticipant(p.participantId, Some(p.isVegetarian), Some(p.isVegan), Some(p.drinksAlcohol),
                      Some(p.stayDuration), Some(p.joinTime), Some(p.suggestions), Some(p.bringingItems))
  }

  /** The answers a participant currently has. */
  function AnswersOf(p: Participant): ParticipantData {
    ParticipantData(p.isVegetarian, p.isVegan, p.drinksAlcohol, p.stayDuration, p.joinTime,
                    p.suggestions, p.bringingItems)
  }

  /**
   * For a complete participant the form starts as exactly the stored
   * answers, except that a zero stay becomes four hours.
   */
  lemma InitialFormOfComplete(p: Participant)
    ensures p.stayDuration != 0.0 ==> InitialForm(Stored(p)) == AnswersOf(p)
    ensures p.stayDuration == 0.0 ==>
      InitialForm(Stored(p)) == AnswersOf(p).(stayDuration := DefaultStayDuration)
  {
  }

  /** The update path of `handleSubmit`. */
  function UpdatePath(meetupId: string, participantId: string): (r: string)
    ensures |r| == |meetupId| + |participantId| + |"/api/meetups//participants//update"|
    ensures r[..|"/api/meetups/"|] == "/api/meetups/" && r[|r| - |"/update"|..] == "/update"
  {
    "/api/meetups/" + meetupId + "/participants/" + participantId + "/update"
  }

  /** The path is keyed by the user id: for one meetup, different users get different paths. */
  lemma UpdatePathKeyedByUser(meetupId: string, u1: string, u2: string)
    requires UpdatePath(meetupId, u1) == UpdatePath(meetupId, u2)
    ensures u1 == u2
  {
    var prefix := "/api/meetups/" + meetupId + "/participants/";
    var p1, p2 := UpdatePath(meetupId, u1), UpdatePath(meetupId, u2);
    assert p1 == prefix + u1 + "/update";
    assert p2 == prefix + u2 + "/update";
    assert |u1| == |u2|;
    assert u1 == p1[|prefix|..|prefix| + |u1|];
    assert u2 == p2[|prefix|..|prefix| + |u2|];
  }

  class EditModalState {
    const meetupId: string
    const participantId: string
    var formData: ParticipantData
    var newItem: string

    /** Opening the dialog for `participant` of meetup `meetupId`. */
    constructor (meetupId: string, participant: StoredParticipant)
      ensures this.meetupId == meetupId && this.participantId == participant.participantId
      ensures formData == InitialForm(participant) && newItem == ""
    {
      this.meetupId := meetupId;
      this.participantId := participant.participantId;
      formData := InitialForm(participant);
      newItem := "";
    }

    /** The answer inputs, each replacing one field of `formData`. */
    method EditAnswers(data: ParticipantData)
      modifies this
      ensures formData == data && newItem == old(newItem)
    {
      formData := data;
    }

    /** The new-item input's `onChange`. */
    method TypeItem(text: string)
      modifies this
      ensures newItem == text && formData == old(formData)
    {
      newItem := text;
    }

    /**
     * `addBringingItem`: blank input is ignored; otherwise the trimmed text
     * is appended and the input cleared.
     */
    method AddBringingItem()
      modifies this
      ensures IsBlank(old(newItem)) ==> formData == old(formData) && newItem == old(newItem)
      ensures !IsBlank(old(newItem)) ==>
        && formData == old(formData).(bringingItems := old(formData).bringingItems + [Trim(old(newItem))])
        && newItem == ""
    {
      if IsBlank(newItem) {
        return;
      }
      formData := formData.(bringingItems := formData.bringingItems + [Trim(newItem)]);
      newItem := "";
    }

    /** `removeBringingItem(index)`. */
    method RemoveBringingItem(index: int)
      modifies this
      ensures formData == old(formData).(bringingItems := Seqs.RemoveAt(old(formData).bringingItems, index))
      ensures newItem == old(newItem)
    {
      formData := formData.(bringingItems := Seqs.RemoveAt(formData.bringingItems, index));
    }

    /** `handleSubmit`: the whole form, sent to the participant's update path. */
    method HandleSubmit() returns (path: string, body: ParticipantData)
      ensures path == UpdatePath(meetupId, participantId)
      ensures body == formData
    {
      path := UpdatePath(meetupId, participantId);
      body := formData;
    }
  }

  /** An appended item is never blank: it is the trimmed, non-blank input. */
  lemma AddedItemNotBlank(text: string)
    requires !IsBlank(text)
    ensures !IsBlank(Trim(text)) && Trim(text) != ""
  {
    BlankIffTrimEmpty(text);
    var t := Trim(text);
    assert !IsWhitespace(t[0]);
  }
}
