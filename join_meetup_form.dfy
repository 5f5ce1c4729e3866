/**
 * The join form (components/join-meetup-form.tsx): a code input, the
 * lookup of a meetup by its code, the participant's answers and the join
 * request.  The responses of the two requests are parameters.
 */
module JoinMeetupForm {

  import opened Wrappers
  import opened Strings
  import opened Types

  /** The input's `maxLength`. */
  const CodeLength: nat := 6

  /** What the code input holds after typing `typed`: at most six characters, upper-cased. */
  function CodeInput(typed: string): (c: string)
    ensures |c| == if |typed| <= CodeLength then |typed| else CodeLength
    ensures forall i :: 0 <= i < |c| ==> c[i] == UpperChar(typed[i])
  {
    ToUpper(if |typed| <= CodeLength then typed else typed[..CodeLength])
  }

  /** Typing the input's own contents again changes nothing. */
  lemma CodeInputIdempotent(typed: string)
    ensures CodeInput(CodeInput(typed)) == CodeInput(typed)
  {
    ToUpperIdempotent(if |typed| <= CodeLength then typed else typed[..CodeLength]);
  }

  /** The code sent to the lookup: `code.trim().toUpperCase()`. */
  function LookupCode(code: string): (q: string)
    ensures |q| <= |code|
  {
    ToUpper(Trim(code))
  }

  /** The lookup `findMeetup` makes: none for a blank code, else the looked-up code. */
  function LookupQuery(code: string): (q: Option<string>)
    ensures q.None? <==> IsBlank(code)
    ensures q.Some? ==> q.value == LookupCode(code) && q.value != []
  {
    LookupCodeEmptyIffBlank(code);
    if IsBlank(code) then None else Some(LookupCode(code))
  }

  /**
   * The lookup code is the trimmed code with each character upper-cased: the
   * characters of `code` after its leading whitespace, up to its trailing
   * whitespace.
   */
  lemma LookupCodeSpelling(code: string)
    ensures var q, t := LookupCode(code), Trim(code);
      && |q| == |t| && t == code[LeadLength(code)..LeadLength(code) + |t|]
      && forall i :: 0 <= i < |q| ==> q[i] == UpperChar(code[LeadLength(code) + i])
  {
    TrimSpan(code);
  }

  /** Upper-casing leaves whitespace alone. */
  lemma UpperKeepsWhitespace(c: char)
    ensures IsWhitespace(UpperChar(c)) <==> IsWhitespace(c)
  {
  }

  /** Leading whitespace is the same before and after upper-casing. */
  lemma {:induction false} UpperTrimStart(s: string)
    ensures TrimStart(ToUpper(s)) == ToUpper(TrimStart(s))
    decreases |s|
  {
    if s != [] {
      UpperKeepsWhitespace(s[0]);
      if IsWhitespace(s[0]) {
        assert ToUpper(s)[1..] == ToUpper(s[1..]);
        UpperTrimStart(s[1..]);
      }
    }
  }

  /** Trailing whitespace is the same before and after upper-casing. */
  lemma {:induction false} UpperTrimEnd(s: string)
    ensures TrimEnd(ToUpper(s)) == ToUpper(TrimEnd(s))
    decreases |s|
  {
    if s != [] {
      UpperKeepsWhitespace(s[|s| - 1]);
      if IsWhitespace(s[|s| - 1]) {
        assert ToUpper(s)[..|s| - 1] == ToUpper(s[..|s| - 1]);
        UpperTrimEnd(s[..|s| - 1]);
      }
    }
  }

  /** Trimming and upper-casing commute: `code.trim().toUpperCase()` is `code.toUpperCase().trim()`. */
  lemma TrimUpperCommute(s: string)
    ensures ToUpper(Trim(s)) == Trim(ToUpper(s))
  {
    UpperTrimStart(s);
    UpperTrimEnd(TrimStart(s));
  }

  /** The lookup code is empty exactly for a blank code. */
  lemma LookupCodeEmptyIffBlank(code: string)
    ensures LookupCode(code) == [] <==> IsBlank(code)
  {
    BlankIffTrimEmpty(code);
  }

  /** The lookup code has no surrounding whitespace. */
  lemma LookupCodeTrimmed(code: string)
    ensures var q := LookupCode(code);
      q == [] || (!IsWhitespace(q[0]) && !IsWhitespace(q[|q| - 1]))
  {
    UpperKeepsEnds(Trim(code));
  }

  /** Upper-casing keeps a text without surrounding whitespace that way. */
  lemma UpperKeepsEnds(t: string)
    requires t == [] || (!IsWhitespace(t[0]) && !IsWhitespace(t[|t| - 1]))
    ensures var q := ToUpper(t);
      q == [] || (!IsWhitespace(q[0]) && !IsWhitespace(q[|q| - 1]))
  {
    var q := ToUpper(t);
    if t != [] {
      assert q[0] == UpperChar(t[0]) && q[|q| - 1] == UpperChar(t[|t| - 1]);
      UpperKeepsWhitespace(t[0]);
      UpperKeepsWhitespace(t[|t| - 1]);
    }
  }

  /** The lookup code has no lower-case letter. */
  lemma LookupCodeUpper(code: string)
    ensures forall i :: 0 <= i < |LookupCode(code)| ==> !IsAsciiLower(LookupCode(code)[i])
  {
  }

  const DefaultParticipantData := ParticipantData(false, false, false, 4.0, "", "", [])

  /** The join request body: the user's id and name followed by every answer. */
  datatype JoinPayload = JoinPayload(participantId: string, username: string, data: ParticipantData)

  /** The response of a request: success, or failure with the server's `error` text if any. */
  datatype Response<T> = Ok(value: T) | Failed(error: Option<string>)

  /** `errorData.error || fallback`. */
  function ErrorText(error: Option<string>, fallback: string): (r: string)
    ensures r != "" || fallback == ""
    ensures error.Some? && error.value != "" ==> r == error.value
  {
    match error
    case Some(e) => if e != "" then e else fallback
    case None => fallback
  }

  class JoinFormState {
    var code: string
    var meetup: Option<Meetup>
    var participantData: ParticipantData
    var error: Option<string>

    constructor ()
      ensures code == "" && meetup.None? && participantData == DefaultParticipantData && error.None?
    {
      code := "";
      meetup := None;
      participantData := DefaultParticipantData;
      error := None;
    }

    /** The code input's `onChange`. */
    method TypeCode(typed: string)
      modifies this
      ensures code == CodeInput(typed)
      ensures meetup == old(meetup) && participantData == old(participantData) && error == old(error)
    {
      code := CodeInput(typed);
    }

    /** An answer input's `onChange`. */
    method EditAnswers(data: ParticipantData)
      modifies this
      ensures participantData == data
      ensures code == old(code) && meetup == old(meetup) && error == old(error)
    {
      participantData := data;
    }

    /**
     * `findMeetup`: a blank code makes no lookup and changes nothing;
     * otherwise the lookup code is sent and the response either sets the
     * meetup and clears the error, or sets the error.
     */
    method FindMeetup(response: Response<Meetup>) returns (query: Option<string>)
      modifies this
      ensures query == LookupQuery(old(code))
      ensures query.None? ==> meetup == old(meetup) && error == old(error)
      ensures query.Some? && response.Ok? ==> meetup == Some(response.value) && error.None?
      ensures query.Some? && response.Failed? ==>
        meetup == old(meetup) && error == Some(ErrorText(response.error, "Meetup not found"))
      ensures code == old(code) && participantData == old(participantData)
    {
      query := LookupQuery(code);
      if query.Some? {
        ReceiveMeetup(response);
      }
    }

    /** The lookup's response: the meetup found and no error, or the error text. */
    method ReceiveMeetup(response: Response<Meetup>)
      modifies this
      ensures response.Ok? ==> meetup == Some(response.value) && error.None?
      ensures response.Failed? ==> meetup == old(meetup) && error == Some(ErrorText(response.error, "Meetup not found"))
      ensures code == old(code) && participantData == old(participantData)
    {
      match response
      case Ok(m) =>
        meetup, error := Some(m), None;
      case Failed(e) =>
        error := Some(ErrorText(e, "Meetup not found"));
    }

    /**
     * `joinMeetup`: nothing without a user or a found meetup, nor without a
     * join time; otherwise the request is sent to the meetup's join path,
     * and a failure sets the error.
     */
    method JoinMeetup(user: Option<User>, response: Response<()>) returns (request: Option<(string, JoinPayload)>)
      modifies this
      ensures code == old(code) && meetup == old(meetup) && participantData == old(participantData)
      ensures request.Some? <==> user.Some? && old(meetup).Some? && old(participantData).joinTime != ""
      ensures request.Some? ==>
        request.value == (meetup.value.id, JoinPayload(user.value.id, user.value.username, participantData))
      ensures request.None? ==> error == old(error)
      ensures request.Some? ==> error == if response.Ok? then None else Some(ErrorText(response.error, "Failed to join meetup"))
    {
      if user.None? || meetup.None? {
        return None;
      }
      if participantData.joinTime == "" {
        return None;
      }
      error := None;
      request := Some((meetup.value.id, JoinPayload(user.value.id, user.value.username, participantData)));
      if response.Failed? {
        error := Some(ErrorText(response.error, "Failed to join meetup"));
      }
    }
  }
}
