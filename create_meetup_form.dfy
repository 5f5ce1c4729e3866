/**
 * The create-meetup form (components/create-meetup-form.tsx): field
 * validation into an error record, the shopping list and date-option
 * editors, and the request built on submit, either for a single date or for
 * a date poll whose first complete option becomes the initial date.
 */
module CreateMeetupForm {

  import opened Wrappers
  import opened Strings
  import opened Types
  import opened MapsUtils
  import opened Translations
  import opened IntlProvider
  import Seqs

  /** The form fields; dates and times are the raw input strings. */
  datatype FormData = FormData(
    title: string,
    description: string,
    location: string,
    date: string,
    time: string,
    endDate: string,
    endTime: string,
    hasAlcohol: bool)

  const EmptyForm := FormData("", "", "", "", "", "", "", false)

  /** One candidate date of a poll as edited in the form. */
  datatype DateOption = DateOption(id: string, date: string, time: string, endTime: string, description: string)

  /** The shopping item being typed in. */
  datatype ItemDraft = ItemDraft(name: string, baseAmount: real, unit: string, category: Category, perPerson: bool)

  const BlankDraft := ItemDraft("", 1.0, "", Food, false)

  // ---------------------------------------------------------------------------
  // Validation

  /** `d.date && d.time`: both filled in. */
  predicate IsComplete(d: DateOption) {
    d.date != "" && d.time != ""
  }

  /** `possibleDates.filter((d) => d.date && d.time)`. */
  function CompleteOptions(options: seq<DateOption>): (r: seq<DateOption>)
    ensures |r| <= |options|
    ensures forall d :: d in r <==> d in options && IsComplete(d)
  {
    if options == [] then []
    else (if IsComplete(options[0]) then [options[0]] else []) + CompleteOptions(options[1..])
  }

  /** The first complete option is the earliest one in the list with both date and time. */
  lemma {:induction false} FirstCompleteOption(options: seq<DateOption>)
    requires CompleteOptions(options) != []
    ensures exists i :: (0 <= i < |options| && options[i] == CompleteOptions(options)[0]
                         && forall j :: 0 <= j < i ==> !IsComplete(options[j]))
  {
    if !IsComplete(options[0]) {
      FirstCompleteOption(options[1..]);
      var i :| 0 <= i < |options[1..]| && options[1..][i] == CompleteOptions(options[1..])[0]
        && forall j :: 0 <= j < i ==> !IsComplete(options[1..][j]);
      assert options[i + 1] == CompleteOptions(options)[0];
      forall j | 0 <= j < i + 1 ensures !IsComplete(options[j]) {
        if j > 0 {
          assert options[j] == options[1..][j - 1];
        }
      }
    } else {
      assert options[0] == CompleteOptions(options)[0];
    }
  }

  /** The location error: a non-maps `http` address, else a blank location. */
  function LocationError(location: string): Option<string> {
    if StartsWith(location, "http") && !IsValidGoogleMapsUrl(location) then Some("validGoogleMapsLink")
    else if IsBlank(location) then Some("locationRequired")
    else None
  }

  /** A maps link is an acceptable location. */
  lemma MapsLinkAccepted(location: string)
    requires IsValidGoogleMapsUrl(location)
    ensures LocationError(location).None?
  {
    LinksAreHttps(location);
    assert location[0] == 'h' by { assert location[..8] == "https://"; }
  }

  /** An `http://` address is refused as a maps link, never as a missing location. */
  lemma PlainHttpRefused(location: string)
    requires StartsWith(location, "http://")
    ensures LocationError(location) == Some("validGoogleMapsLink")
  {
    HttpRejected(location);
    assert location[..4] == "http" by { assert location[..7] == "http://"; }
  }

  /** Any other non-blank text, such as a street address, passes. */
  lemma OtherTextAccepted(location: string)
    requires !IsBlank(location) && !StartsWith(location, "http")
    ensures LocationError(location).None?
  {
  }

  /** The form passes `validateForm`. */
  predicate FormValid(form: FormData, showDateOptions: bool, options: seq<DateOption>) {
    && !IsBlank(form.title)
    && !IsBlank(form.description)
    && LocationError(form.location).None?
    && (if showDateOptions then CompleteOptions(options) != [] else form.date != "" && form.time != "")
  }

  /** The context's `t` in language `lang`. */
  function Translator(lang: Language): string -> string {
    key => T(lang, key)
  }

  /**
   * The `errors` object: the message shown under each field, `None` where
   * the object has no such key.
   */
  datatype FormErrors = FormErrors(
    title: Option<string>,
    description: Option<string>,
    location: Option<string>,
    date: Option<string>,
    time: Option<string>)

  const NoErrors := FormErrors(None, None, None, None, None)

  /** `Object.keys(errors).length === 0`. */
  predicate IsEmpty(e: FormErrors) {
    e.title.None? && e.description.None? && e.location.None? && e.date.None? && e.time.None?
  }

  /**
   * The messages `validateForm` shows: a blank title, description or
   * location; a non-maps `http` location; and, for a single date, an empty
   * date or time, or, in poll mode, no complete option (reported under date).
   */
  predicate ErrorsFor(e: FormErrors, form: FormData, showDateOptions: bool, options: seq<DateOption>, t: string -> string)
    ensures ErrorsFor(e, form, showDateOptions, options, t) ==> (IsEmpty(e) <==> FormValid(form, showDateOptions, options))
  {
    && e.title == (if IsBlank(form.title) then Some(t("titleRequired")) else None)
    && e.description == (if IsBlank(form.description) then Some(t("descriptionRequired")) else None)
    && e.location == (match LocationError(form.location)
                      case Some(k) => Some(t(k))
                      case None => None)
    && e.date == (if !showDateOptions then (if form.date == "" then Some(t("dateRequired")) else None)
                  else if CompleteOptions(options) == [] then Some(t("addCompleteDateOption"))
                  else None)
    && e.time == (if !showDateOptions && form.time == "" then Some(t("timeRequired")) else None)
  }

  /**
   * `validateForm()`: fills the error object field by field. Each error
   * message is `t` of its message key, `t` being the context's translator.
   */
  method ValidateForm(form: FormData, showDateOptions: bool, options: seq<DateOption>, t: string -> string)
    returns (errors: FormErrors, valid: bool)
    ensures ErrorsFor(errors, form, showDateOptions, options, t)
    ensures valid <==> IsEmpty(errors)
    ensures valid <==> FormValid(form, showDateOptions, options)
  {
    errors := NoErrors;
    if IsBlank(form.title) {
      errors := errors.(title := Some(t("titleRequired")));
    }
    if IsBlank(form.description) {
      errors := errors.(description := Some(t("descriptionRequired")));
    }
    if IsBlank(form.location) {
      errors := errors.(location := Some(t("locationRequired")));
    }
    if StartsWith(form.location, "http") && !IsValidGoogleMapsUrl(form.location) {
      errors := errors.(location := Some(t("validGoogleMapsLink")));
    }
    if !showDateOptions {
      if form.date == "" {
        errors := errors.(date := Some(t("dateRequired")));
      }
      if form.time == "" {
        errors := errors.(time := Some(t("timeRequired")));
      }
    } else {
      var validOptions := CompleteOptions(options);
      if |validOptions| == 0 {
        errors := errors.(date := Some(t("addCompleteDateOption")));
      }
    }
    valid := IsEmpty(errors);
  }

  /** The message keys `validateForm` uses. */
  const ValidationKeys: seq<string> := ["titleRequired", "descriptionRequired", "locationRequired",
    "validGoogleMapsLink", "dateRequired", "timeRequired", "addCompleteDateOption"]

  /** No validation message is in the tables, so every error shows its message key. */
  lemma MessageIsKey(lang: Language, i: nat)
    requires i < |ValidationKeys|
    ensures Translator(lang)(ValidationKeys[i]) == ValidationKeys[i]
  {
    var k := ValidationKeys[i];
    if i < 3 {
      FieldKeysMissing();
    } else if i < 5 {
      LinkAndDateKeysMissing();
    } else {
      TimeAndOptionKeysMissing();
    }
    assert English(k).None? && German(k).None?;
  }

  lemma FieldKeysMissing()
    ensures English("titleRequired").None? && German("titleRequired").None?
    ensures English("descriptionRequired").None? && German("descriptionRequired").None?
    ensures English("locationRequired").None? && German("locationRequired").None?
  {
  }

  lemma LinkAndDateKeysMissing()
    ensures English("validGoogleMapsLink").None? && German("validGoogleMapsLink").None?
    ensures English("dateRequired").None? && German("dateRequired").None?
  {
  }

  lemma TimeAndOptionKeysMissing()
    ensures English("timeRequired").None? && German("timeRequired").None?
    ensures English("addCompleteDateOption").None? && German("addCompleteDateOption").None?
  {
  }

  // ---------------------------------------------------------------------------
  // List editors

  /** `shoppingList.filter((item) => item.id !== id)`. */
  function WithoutItem(list: seq<ShoppingItem>, id: string): (r: seq<ShoppingItem>)
    ensures |r| <= |list|
    ensures forall x :: x in r <==> x in list && x.id != id
  {
    if list == [] then []
    else (if list[0].id != id then [list[0]] else []) + WithoutItem(list[1..], id)
  }

  /** Removing an id that is not there keeps the list as it was. */
  lemma {:induction false} WithoutAbsentItem(list: seq<ShoppingItem>, id: string)
    requires forall x :: x in list ==> x.id != id
    ensures WithoutItem(list, id) == list
  {
    if list != [] {
      assert list[0] in list;
      WithoutAbsentItem(list[1..], id);
    }
  }

  /** Removal keeps the remaining items in their order: removing before or after an append commutes. */
  lemma {:induction false} WithoutItemAppend(list: seq<ShoppingItem>, x: ShoppingItem, id: string)
    ensures WithoutItem(list + [x], id) == WithoutItem(list, id) + (if x.id != id then [x] else [])
  {
    if list == [] {
      assert [] + [x] == [x];
    } else {
      var lx, t := list + [x], list[1..];
      var h := if list[0].id != id then [list[0]] else [];
      var tail := if x.id != id then [x] else [];
      assert lx[0] == list[0] && lx[1..] == t + [x];
      WithoutItemAppend(t, x, id);
      WithoutItemUnfold(lx, id);
      WithoutItemUnfold(list, id);
      Seqs.ConcatChain(WithoutItem(lx, id), WithoutItem(t + [x], id), WithoutItem(list, id), h, WithoutItem(t, id), tail);
    }
  }

  lemma WithoutItemUnfold(list: seq<ShoppingItem>, id: string)
    requires list != []
    ensures WithoutItem(list, id) == (if list[0].id != id then [list[0]] else []) + WithoutItem(list[1..], id)
  {
  }

  function NewItem(id: string, d: ItemDraft): ShoppingItem {
    ShoppingItem(id, d.name, d.baseAmount, d.unit, d.category, d.perPerson)
  }

  /** One field of a date option, as its inputs set it. */
  datatype OptionEdit = SetDate(date: string) | SetTime(time: string) | SetEndTime(endTime: string) | SetDescription(description: string)

  function ApplyOptionEdit(d: DateOption, edit: OptionEdit): DateOption {
    match edit
    case SetDate(v) => d.(date := v)
    case SetTime(v) => d.(time := v)
    case SetEndTime(v) => d.(endTime := v)
    case SetDescription(v) => d.(description := v)
  }

  /** Why `addShoppingItem` stopped, if it did. */
  datatype AddOutcome = ItemNameRequired | UnitRequired | Added

  // ---------------------------------------------------------------------------
  // Submit

  /** The POST body of `handleSubmit`; `possibleDates` is present in poll mode only. */
  datatype MeetupRequest = MeetupRequest(
    title: string,
    description: string,
    location: string,
    date: string,
    time: string,
    endDate: string,
    endTime: string,
    hasAlcohol: bool,
    hostId: string,
    hostUsername: string,
    shoppingList: seq<ShoppingItem>,
    usesDatePolling: bool,
    possibleDates: Option<seq<DateOption>>)

  /**
   * The request of a validated form. In poll mode with options the first
   * complete option supplies date, time and end time.
   */
  function BuildMeetupRequest(form: FormData, showDateOptions: bool, options: seq<DateOption>,
                              user: User, shoppingList: seq<ShoppingItem>): (r: MeetupRequest)
    requires showDateOptions ==> CompleteOptions(options) != []
    ensures r.hostId == user.id && r.hostUsername == user.username && r.shoppingList == shoppingList
    ensures r.title == form.title && r.description == form.description && r.location == form.location
    ensures r.endDate == form.endDate && r.hasAlcohol == form.hasAlcohol
    ensures r.usesDatePolling <==> showDateOptions
    ensures showDateOptions ==> var first := CompleteOptions(options)[0];
      && r.date == first.date && r.time == first.time && r.endTime == first.endTime
      && r.possibleDates == Some(CompleteOptions(options))
    ensures !showDateOptions ==>
      r.date == form.date && r.time == form.time && r.endTime == form.endTime && r.possibleDates.None?
  {
    var base := MeetupRequest(form.title, form.description, form.location, form.date, form.time,
                              form.endDate, form.endTime, form.hasAlcohol, user.id, user.username,
                              shoppingList, false, None);
    if showDateOptions && |options| > 0 then
      var valid := CompleteOptions(options);
      var first := valid[0];
      base.(date := first.date, time := first.time, endTime := first.endTime,
            possibleDates := Some(valid), usesDatePolling := true)
    else
      base.(usesDatePolling := false)
  }

  /** The error object is empty exactly when the form is valid. */
  lemma {:induction false} NoErrorsIffValid(e: FormErrors, form: FormData, showDateOptions: bool,
                                            options: seq<DateOption>, t: string -> string)
    requires ErrorsFor(e, form, showDateOptions, options, t)
    ensures IsEmpty(e) <==> FormValid(form, showDateOptions, options)
  {
  }

  /** A valid form can always be built into a request. */
  lemma ValidFormBuilds(form: FormData, showDateOptions: bool, options: seq<DateOption>)
    requires FormValid(form, showDateOptions, options)
    ensures showDateOptions ==> CompleteOptions(options) != []
  {
  }

  // ---------------------------------------------------------------------------
  // Component state

  class CreateMeetupFormState {
    var formData: FormData
    var possibleDates: seq<DateOption>
    var showDateOptions: bool
    var shoppingList: seq<ShoppingItem>
    var newItem: ItemDraft
    var errors: FormErrors

    constructor ()
      ensures formData == EmptyForm && possibleDates == [] && !showDateOptions
      ensures shoppingList == [] && newItem == BlankDraft && errors == NoErrors
    {
      formData := EmptyForm;
      possibleDates := [];
      showDateOptions := false;
      shoppingList := [];
      newItem := BlankDraft;
      errors := NoErrors;
    }

    /**
     * `addShoppingItem()` with `id` as the value `uuidv4()` returns: a blank
     * name is refused first, then a blank unit; otherwise the draft is
     * appended and reset.
     */
    method AddShoppingItem(id: string) returns (outcome: AddOutcome)
      modifies this
      ensures outcome == ItemNameRequired <==> IsBlank(old(newItem).name)
      ensures outcome == UnitRequired <==> !IsBlank(old(newItem).name) && IsBlank(old(newItem).unit)
      ensures outcome == Added ==> shoppingList == old(shoppingList) + [NewItem(id, old(newItem))] && newItem == BlankDraft
      ensures outcome != Added ==> shoppingList == old(shoppingList) && newItem == old(newItem)
      ensures formData == old(formData) && possibleDates == old(possibleDates)
      ensures showDateOptions == old(showDateOptions) && errors == old(errors)
    {
      if IsBlank(newItem.name) {
        return ItemNameRequired;
      }
      if IsBlank(newItem.unit) {
        return UnitRequired;
      }
      shoppingList := shoppingList + [NewItem(id, newItem)];
      newItem := BlankDraft;
      outcome := Added;
    }

    /** `removeShoppingItem(id)`. */
    method RemoveShoppingItem(id: string)
      modifies this
      ensures shoppingList == WithoutItem(old(shoppingList), id)
      ensures forall x :: x in shoppingList ==> x.id != id
      ensures formData == old(formData) && possibleDates == old(possibleDates) && newItem == old(newItem)
      ensures showDateOptions == old(showDateOptions) && errors == old(errors)
    {
      shoppingList := WithoutItem(shoppingList, id);
    }

    /** The "add date option" button, with `id` from `uuidv4()`. */
    method AddDateOption(id: string)
      modifies this
      ensures possibleDates == old(possibleDates) + [DateOption(id, "", "", "", "")]
      ensures formData == old(formData) && shoppingList == old(shoppingList) && newItem == old(newItem)
      ensures showDateOptions == old(showDateOptions) && errors == old(errors)
    {
      possibleDates := possibleDates + [DateOption(id, "", "", "", "")];
    }

    /** The "remove" button of option `index`. */
    method RemoveDateOption(index: int)
      modifies this
      ensures possibleDates == Seqs.RemoveAt(old(possibleDates), index)
      ensures formData == old(formData) && shoppingList == old(shoppingList) && newItem == old(newItem)
      ensures showDateOptions == old(showDateOptions) && errors == old(errors)
    {
      possibleDates := Seqs.RemoveAt(possibleDates, index);
    }

    /** An input of option `index`: only that field of that option changes. */
    method UpdateDateOption(index: nat, edit: OptionEdit)
      requires index < |possibleDates|
      modifies this
      ensures |possibleDates| == |old(possibleDates)|
      ensures possibleDates[index] == ApplyOptionEdit(old(possibleDates)[index], edit)
      ensures forall i :: 0 <= i < |possibleDates| && i != index ==> possibleDates[i] == old(possibleDates)[i]
      ensures formData == old(formData) && shoppingList == old(shoppingList) && newItem == old(newItem)
      ensures showDateOptions == old(showDateOptions) && errors == old(errors)
    {
      possibleDates := possibleDates[index := ApplyOptionEdit(possibleDates[index], edit)];
    }

    /** The single-date / multiple-dates toggle. */
    method ToggleDateOptions()
      modifies this
      ensures showDateOptions == !old(showDateOptions)
      ensures formData == old(formData) && possibleDates == old(possibleDates)
      ensures shoppingList == old(shoppingList) && newItem == old(newItem) && errors == old(errors)
    {
      showDateOptions := !showDateOptions;
    }

    /** The inputs of the form fields, each replacing one field of `formData`. */
    method EditForm(form: FormData)
      modifies this
      ensures formData == form
      ensures possibleDates == old(possibleDates) && showDateOptions == old(showDateOptions)
      ensures shoppingList == old(shoppingList) && newItem == old(newItem) && errors == old(errors)
    {
      formData := form;
    }

    /** The inputs of the new-item row. */
    method EditDraft(draft: ItemDraft)
      modifies this
      ensures newItem == draft
      ensures formData == old(formData) && possibleDates == old(possibleDates)
      ensures showDateOptions == old(showDateOptions) && shoppingList == old(shoppingList) && errors == old(errors)
    {
      newItem := draft;
    }

    /**
     * `handleSubmit`: nothing without a user; otherwise the form is
     * validated, the errors are stored, and a valid form gives the request.
     */
    method HandleSubmit(user: Option<User>, t: string -> string) returns (request: Option<MeetupRequest>)
      modifies this
      ensures request.Some? <==> user.Some? && FormValid(formData, showDateOptions, possibleDates)
      ensures request.Some? ==>
        request.value == BuildMeetupRequest(formData, showDateOptions, possibleDates, user.value, shoppingList)
      ensures user.None? ==> errors == old(errors)
      ensures user.Some? ==> (IsEmpty(errors) <==> FormValid(formData, showDateOptions, possibleDates))
      ensures user.Some? ==> ErrorsFor(errors, formData, showDateOptions, possibleDates, t)
      ensures formData == old(formData) && possibleDates == old(possibleDates)
      ensures showDateOptions == old(showDateOptions) && shoppingList == old(shoppingList) && newItem == old(newItem)
    {
      if user.None? {
        return None;
      }
      var newErrors, valid := ValidateForm(formData, showDateOptions, possibleDates, t);
      errors := newErrors;
      if !valid {
        return None;
      }
      request := Some(BuildMeetupRequest(formData, showDateOptions, possibleDates, user.value, shoppingList));
    }
  }
}
