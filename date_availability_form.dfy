/**
 * The availability form of a date poll (components/date-availability-form.tsx):
 * a map from candidate date id to the current user's yes/no answer,
 * pre-filled from the stored answers, edited one date at a time and
 * submitted as a list of entries.
 */
module DateAvailabilityForm {

  import opened Wrappers
  import opened Types
  import opened Records

  /** A stored answer by the signed-in user (`user?.id`) for candidate `dateId`. */
  predicate IsOwnAnswer(a: DateAvailability, dateId: string, userId: Option<string>) {
    userId.Some? && a.dateId == dateId && a.participantId == userId.value
  }

  /** `existingAvailabilities.find(...)`: the first of the user's answers for `dateId`. */
  function FindOwn(avs: seq<DateAvailability>, dateId: string, userId: Option<string>): (r: Option<nat>)
    ensures r.None? <==> forall i :: 0 <= i < |avs| ==> !IsOwnAnswer(avs[i], dateId, userId)
    ensures r.Some? ==> r.value < |avs| && IsOwnAnswer(avs[r.value], dateId, userId)
    ensures r.Some? ==> forall j :: 0 <= j < r.value ==> !IsOwnAnswer(avs[j], dateId, userId)
  {
    if avs == [] then None
    else if IsOwnAnswer(avs[0], dateId, userId) then Some(0)
    else match FindOwn(avs[1..], dateId, userId)
      case None => None
      case Some(k) => Some(k + 1)
  }

  /** `existing?.available ?? false`. */
  function InitialAnswer(avs: seq<DateAvailability>, dateId: string, userId: Option<string>): bool {
    match FindOwn(avs, dateId, userId)
    case Some(k) => avs[k].available
    case None => false
  }

  /** The map after the `forEach` has visited the first `n` candidates. */
  function InitialMap(dates: seq<MeetupDate>, n: nat, avs: seq<DateAvailability>, userId: Option<string>): Rec<bool>
    requires n <= |dates|
  {
    if n == 0 then []
    else Set(InitialMap(dates, n - 1, avs, userId), dates[n - 1].id, InitialAnswer(avs, dates[n - 1].id, userId))
  }

  /** The `useState` initializer: one entry per candidate date id. */
  method InitialAvailabilities(dates: seq<MeetupDate>, avs: seq<DateAvailability>, userId: Option<string>)
    returns (initial: Rec<bool>)
    ensures initial == InitialMap(dates, |dates|, avs, userId)
    ensures DistinctKeys(initial)
    ensures forall k :: HasKey(initial, k) <==> exists d :: d in dates && d.id == k
    ensures forall d :: d in dates ==> Get(initial, d.id) == Some(InitialAnswer(avs, d.id, userId))
  {
    initial := [];
    for i := 0 to |dates|
      invariant initial == InitialMap(dates, i, avs, userId)
    {
      initial := Set(initial, dates[i].id, InitialAnswer(avs, dates[i].id, userId));
    }
    InitialMapFacts(dates, |dates|, avs, userId);
    assert dates[..|dates|] == dates;
  }

  /**
   * After `n` steps the map has distinct keys, exactly the ids of the first
   * `n` candidates, each holding the user's first stored answer.
   */
  lemma InitialMapFacts(dates: seq<MeetupDate>, n: nat, avs: seq<DateAvailability>, userId: Option<string>)
    requires n <= |dates|
    ensures DistinctKeys(InitialMap(dates, n, avs, userId))
    ensures forall k :: HasKey(InitialMap(dates, n, avs, userId), k) <==> exists d :: d in dates[..n] && d.id == k
    ensures forall k :: HasKey(InitialMap(dates, n, avs, userId), k) ==>
      Get(InitialMap(dates, n, avs, userId), k) == Some(InitialAnswer(avs, k, userId))
  {
    InitialMapInvariant(dates, n, avs, userId);
  }

  /** What holds of the map after the loop has visited the candidates `seen`. */
  ghost predicate MapInvariant(m: Rec<bool>, seen: seq<MeetupDate>, avs: seq<DateAvailability>, userId: Option<string>) {
    && DistinctKeys(m)
    && (forall k :: HasKey(m, k) <==> exists d :: d in seen && d.id == k)
    && HoldsAnswers(m, avs, userId)
  }

  /** Every key of the map holds the user's pre-filled value for it. */
  ghost predicate HoldsAnswers(m: Rec<bool>, avs: seq<DateAvailability>, userId: Option<string>) {
    forall k :: HasKey(m, k) ==> Get(m, k) == Some(InitialAnswer(avs, k, userId))
  }

  lemma {:induction false} InitialMapInvariant(dates: seq<MeetupDate>, n: nat, avs: seq<DateAvailability>, userId: Option<string>)
    requires n <= |dates|
    ensures MapInvariant(InitialMap(dates, n, avs, userId), dates[..n], avs, userId)
  {
    if n > 0 {
      InitialMapInvariant(dates, n - 1, avs, userId);
      assert dates[..n] == dates[..n - 1] + [dates[n - 1]];
      SetKeepsInvariant(InitialMap(dates, n - 1, avs, userId), dates[..n - 1], dates[n - 1], avs, userId);
    }
  }

  /** One step of the loop keeps the invariant. */
  lemma SetKeepsInvariant(m: Rec<bool>, seen: seq<MeetupDate>, d: MeetupDate, avs: seq<DateAvailability>, userId: Option<string>)
    requires MapInvariant(m, seen, avs, userId)
    ensures MapInvariant(Set(m, d.id, InitialAnswer(avs, d.id, userId)), seen + [d], avs, userId)
  {
    SetDistinct(m, d.id, InitialAnswer(avs, d.id, userId));
    SetKeepsKeys(m, seen, d, InitialAnswer(avs, d.id, userId));
    SetKeepsAnswers(m, d.id, avs, userId);
  }

  /** Setting the key of one more candidate adds exactly that candidate's id to the keys. */
  lemma SetKeepsKeys(m: Rec<bool>, seen: seq<MeetupDate>, d: MeetupDate, v: bool)
    requires forall k :: HasKey(m, k) <==> exists e :: e in seen && e.id == k
    ensures forall k :: HasKey(Set(m, d.id, v), k) <==> exists e :: e in seen + [d] && e.id == k
  {
    var m' := Set(m, d.id, v);
    forall k ensures HasKey(m', k) <==> exists e :: e in seen + [d] && e.id == k {
      SetGet(m, d.id, v, k);
      if exists e :: e in seen + [d] && e.id == k {
        var e :| e in seen + [d] && e.id == k;
        if e != d {
          assert e in seen;
        }
      }
      if HasKey(m', k) && k != d.id {
        var e :| e in seen && e.id == k;
        assert e in seen + [d];
      }
    }
  }

  /** Setting a key to its pre-filled value keeps every key of the map holding its pre-filled value. */
  lemma SetKeepsAnswers(m: Rec<bool>, key: string, avs: seq<DateAvailability>, userId: Option<string>)
    requires HoldsAnswers(m, avs, userId)
    ensures HoldsAnswers(Set(m, key, InitialAnswer(avs, key, userId)), avs, userId)
  {
    var m' := Set(m, key, InitialAnswer(avs, key, userId));
    forall k | HasKey(m', k) ensures Get(m', k) == Some(InitialAnswer(avs, k, userId)) {
      SetGet(m, key, InitialAnswer(avs, key, userId), k);
    }
  }

  /** The user's own answers, in record order. */
  function OwnRecords(avs: seq<DateAvailability>, userId: Option<string>): (r: seq<DateAvailability>)
    ensures forall a :: a in r <==> a in avs && userId.Some? && a.participantId == userId.value
  {
    if avs == [] then []
    else (if userId.Some? && avs[0].participantId == userId.value then [avs[0]] else []) + OwnRecords(avs[1..], userId)
  }

  /** The pre-filled value one record at a time: the first record mine for this date decides. */
  lemma InitialAnswerCons(a: DateAvailability, rest: seq<DateAvailability>, dateId: string, userId: Option<string>)
    ensures InitialAnswer([a] + rest, dateId, userId) ==
      if IsOwnAnswer(a, dateId, userId) then a.available else InitialAnswer(rest, dateId, userId)
  {
    assert ([a] + rest)[1..] == rest;
  }

  /** Other participants' answers never change the pre-filled value. */
  lemma {:induction false} OthersIgnored(avs: seq<DateAvailability>, dateId: string, userId: Option<string>)
    ensures InitialAnswer(avs, dateId, userId) == InitialAnswer(OwnRecords(avs, userId), dateId, userId)
  {
    if avs != [] {
      var rest := avs[1..];
      OthersIgnored(rest, dateId, userId);
      assert avs == [avs[0]] + rest;
      InitialAnswerCons(avs[0], rest, dateId, userId);
      if userId.Some? && avs[0].participantId == userId.value {
        assert OwnRecords(avs, userId) == [avs[0]] + OwnRecords(rest, userId);
        InitialAnswerCons(avs[0], OwnRecords(rest, userId), dateId, userId);
      } else {
        assert OwnRecords(avs, userId) == OwnRecords(rest, userId);
      }
    }
  }

  /** Without a signed-in user nothing matches and every date starts unanswered. */
  lemma SignedOutAllFalse(avs: seq<DateAvailability>, dateId: string)
    ensures InitialAnswer(avs, dateId, None) == false
  {
  }

  /** One submitted answer. */
  datatype Entry = Entry(dateId: string, available: bool)

  /** The request body of `handleSubmit`. */
  datatype Payload = Payload(participantId: string, username: string, availabilities: seq<Entry>)

  /** `Object.entries(availabilities).map(...)`: one entry per map key, in key order. */
  function Entries(m: Rec<bool>): (es: seq<Entry>)
    ensures |es| == |m|
    ensures forall i :: 0 <= i < |m| ==> es[i] == Entry(m[i].0, m[i].1)
  {
    seq(|m|, i requires 0 <= i < |m| => Entry(m[i].0, m[i].1))
  }

  /** A candidate row as rendered: the date and whether its "Available" button is active. */
  datatype OptionRow = OptionRow(date: MeetupDate, availableActive: bool, unavailableActive: bool)

  class AvailabilityForm {
    const possibleDates: seq<MeetupDate>
    const user: Option<User>
    var availabilities: Rec<bool>

    /** Mounting the form for `user` with the stored answers `existing`. */
    constructor (possibleDates: seq<MeetupDate>, existing: seq<DateAvailability>, user: Option<User>)
      ensures this.possibleDates == possibleDates && this.user == user
      ensures availabilities == InitialMap(possibleDates, |possibleDates|, existing,
                                           if user.Some? then Some(user.value.id) else None)
    {
      this.possibleDates := possibleDates;
      this.user := user;
      var initial := InitialAvailabilities(possibleDates, existing, if user.Some? then Some(user.value.id) else None);
      availabilities := initial;
    }

    /** `handleAvailabilityChange(dateId, available)`: only that entry changes. */
    method HandleAvailabilityChange(dateId: string, available: bool)
      modifies this
      ensures availabilities == Set(old(availabilities), dateId, available)
      ensures Get(availabilities, dateId) == Some(available)
      ensures forall k :: k != dateId ==> Get(availabilities, k) == Get(old(availabilities), k)
      ensures HasKey(old(availabilities), dateId) ==> Keys(availabilities) == Keys(old(availabilities))
    {
      var before := availabilities;
      availabilities := Set(availabilities, dateId, available);
      forall k ensures Get(availabilities, k) == if k == dateId then Some(available) else Get(before, k) {
        SetGet(before, dateId, available, k);
      }
    }

    /** `handleSubmit`: nothing without a user, otherwise the request body. */
    method Submit() returns (p: Option<Payload>)
      ensures p.None? <==> user.None?
      ensures p.Some? ==> p.value.participantId == user.value.id && p.value.username == user.value.username
      ensures p.Some? ==> |p.value.availabilities| == |availabilities|
      ensures p.Some? ==> forall i :: 0 <= i < |availabilities| ==>
        p.value.availabilities[i] == Entry(availabilities[i].0, availabilities[i].1)
    {
      if user.None? {
        return None;
      }
      p := Some(Payload(user.value.id, user.value.username, Entries(availabilities)));
    }

    /** The rendered rows; nothing at all without candidates. */
    function Render(): (rows: Option<seq<OptionRow>>)
      reads this
      ensures rows.None? <==> possibleDates == []
      ensures rows.Some? ==> |rows.value| == |possibleDates|
      ensures rows.Some? ==> forall i :: 0 <= i < |possibleDates| ==>
        && rows.value[i].date == possibleDates[i]
        && (rows.value[i].availableActive <==> Get(availabilities, possibleDates[i].id) == Some(true))
        && (rows.value[i].unavailableActive <==> Get(availabilities, possibleDates[i].id) == Some(false))
    {
      if possibleDates == [] then None
      else Some(seq(|possibleDates|, i requires 0 <= i < |possibleDates| reads this =>
        OptionRow(possibleDates[i],
                  Get(availabilities, possibleDates[i].id) == Some(true),
                  Get(availabilities, possibleDates[i].id) == Some(false))))
    }
  }
}
