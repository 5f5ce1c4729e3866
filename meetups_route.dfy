/**
 * The meetup creation endpoint (app/api/meetups/route.ts): a six-character
 * join code drawn from a 36-character alphabet, the stored record, which is
 * the request body with the server's fields laid over it, and the response,
 * which adds the document id and turns dates into ISO strings.  The values
 * `Math.random()` returns, the clock and the document id are parameters.
 */
module MeetupsRoute {

  import opened Wrappers
  import opened Records
  import opened Strings

  /** The characters a join code is made of. */
  const Alphabet := "ABCDEFGHIJKLMNOPQRSTUVWXYZ0123456789"
  const CodeLength: nat := 6

  /** The alphabet is A to Z followed by 0 to 9. */
  lemma AlphabetAt()
    ensures |Alphabet| == 36
    ensures forall k :: 0 <= k < 36 ==>
      Alphabet[k] == if k < 26 then ('A' as int + k) as char else ('0' as int + k - 26) as char
  {
  }

  /** The position of an upper-case letter or a digit in the alphabet. */
  function IndexIn(c: char): (k: nat)
    requires IsAsciiUpper(c) || IsDigit(c)
    ensures k < |Alphabet| && Alphabet[k] == c
  {
    AlphabetAt();
    if IsAsciiUpper(c) then c as int - 'A' as int else c as int - '0' as int + 26
  }

  /** A code character is exactly an upper-case ASCII letter or a decimal digit. */
  lemma AlphabetMembers(c: char)
    ensures c in Alphabet <==> IsAsciiUpper(c) || IsDigit(c)
  {
    AlphabetAt();
    if IsAsciiUpper(c) || IsDigit(c) {
      assert Alphabet[IndexIn(c)] == c;
    }
    if c in Alphabet {
      var k :| 0 <= k < |Alphabet| && Alphabet[k] == c;
      assert Alphabet[k] == if k < 26 then ('A' as int + k) as char else ('0' as int + k - 26) as char;
    }
  }

  /** `Math.floor(r * chars.length)` for a value `0 <= r < 1` of `Math.random()`. */
  function CharIndex(r: real): (k: nat)
    requires 0.0 <= r < 1.0
    ensures k < |Alphabet|
    ensures k as real <= r * |Alphabet| as real < k as real + 1.0
  {
    (r * |Alphabet| as real).Floor
  }

  /** `generateMeetupCode()`, with `random[i]` the `i`-th value `Math.random()` returns. */
  method GenerateMeetupCode(random: seq<real>) returns (code: string)
    requires |random| >= CodeLength
    requires forall i :: 0 <= i < |random| ==> 0.0 <= random[i] < 1.0
    ensures |code| == CodeLength
    ensures forall i :: 0 <= i < |code| ==> code[i] in Alphabet
    ensures forall i :: 0 <= i < |code| ==> code[i] == Alphabet[CharIndex(random[i])]
  {
    code := "";
    for i := 0 to CodeLength
      invariant |code| == i
      invariant forall j :: 0 <= j < i ==> code[j] == Alphabet[CharIndex(random[j])]
    {
      code := code + [Alphabet[CharIndex(random[i])]];
    }
  }

  /** The random value that draws character `k`. */
  function DrawFor(k: nat): (r: real)
    requires k < |Alphabet|
    ensures 0.0 <= r < 1.0 && CharIndex(r) == k
  {
    k as real / |Alphabet| as real
  }

  /** Every code over the alphabet can be drawn: no code is out of reach. */
  lemma EveryCodeReachable(code: string)
    requires |code| == CodeLength && forall i :: 0 <= i < |code| ==> code[i] in Alphabet
    ensures exists random: seq<real> :: (|random| == CodeLength
      && (forall i :: 0 <= i < |random| ==> 0.0 <= random[i] < 1.0)
      && forall i :: 0 <= i < |code| ==> code[i] == Alphabet[CharIndex(random[i])])
  {
    forall i | 0 <= i < |code| ensures IsAsciiUpper(code[i]) || IsDigit(code[i]) {
      AlphabetMembers(code[i]);
    }
    var ks := seq(|code|, i requires 0 <= i < |code| => IndexIn(code[i]));
    var random := seq(|code|, i requires 0 <= i < |code| => DrawFor(ks[i]));
    forall i | 0 <= i < |code| ensures code[i] == Alphabet[CharIndex(random[i])] {
      assert random[i] == DrawFor(ks[i]);
      assert CharIndex(random[i]) == ks[i] == IndexIn(code[i]);
    }
    assert forall i :: 0 <= i < |random| ==> 0.0 <= random[i] < 1.0;
  }

  /** A JavaScript `Date` value: built from a body value, or read from the clock. */
  datatype DateValue = FromValue(source: Option<Json>) | Clock(minute: int)

  /**
   * A JSON value of the request, the stored record or the response.
   * `Date` holds a `Date` object; `IsoString` holds `d.toISOString()`.
   */
  datatype Json =
    | Null
    | Bool(b: bool)
    | Num(n: real)
    | Str(s: string)
    | Arr(items: seq<Json>)
    | Obj(entries: seq<(string, Json)>)
    | Date(d: DateValue)
    | IsoString(d: DateValue)

  /** JavaScript truthiness of a value, with `None` for `undefined`. */
  predicate Truthy(v: Option<Json>) {
    match v
    case None => false
    case Some(j) =>
      match j
      case Null => false
      case Bool(b) => b
      case Num(n) => n != 0.0
      case Str(s) => s != ""
      case _ => true
  }

  /** The keys the server sets in the stored record. */
  predicate ServerKey(k: string) {
    k == "code" || k == "participants" || k == "costs" || k == "createdAt" || k == "date" || k == "endDate"
  }

  /** `data.endDate ? new Date(data.endDate) : null`. */
  function StoredEndDate(data: Rec<Json>): Json {
    if Truthy(Get(data, "endDate")) then Date(FromValue(Get(data, "endDate"))) else Null
  }

  /** The stored meetup: `{...data, code, participants: [], costs: [], createdAt, date, endDate}`. */
  function StoredMeetup(data: Rec<Json>, code: string, now: int): (r: Rec<Json>)
    ensures Keys(data) <= Keys(r)
  {
    var r1 := Set(data, "code", Str(code));
    var r2 := Set(r1, "participants", Arr([]));
    var r3 := Set(r2, "costs", Arr([]));
    var r4 := Set(r3, "createdAt", Date(Clock(now)));
    var r5 := Set(r4, "date", Date(FromValue(Get(data, "date"))));
    Set(r5, "endDate", StoredEndDate(data))
  }

  /** What each key of the stored record holds. */
  lemma {:induction false} StoredMeetupGet(data: Rec<Json>, code: string, now: int, k: string)
    ensures Get(StoredMeetup(data, code, now), k) ==
      if k == "code" then Some(Str(code))
      else if k == "participants" || k == "costs" then Some(Arr([]))
      else if k == "createdAt" then Some(Date(Clock(now)))
      else if k == "date" then Some(Date(FromValue(Get(data, "date"))))
      else if k == "endDate" then Some(StoredEndDate(data))
      else Get(data, k)
  {
    var r1 := Set(data, "code", Str(code));
    var r2 := Set(r1, "participants", Arr([]));
    var r3 := Set(r2, "costs", Arr([]));
    var r4 := Set(r3, "createdAt", Date(Clock(now)));
    var r5 := Set(r4, "date", Date(FromValue(Get(data, "date"))));
    SetGet(data, "code", Str(code), k);
    SetGet(r1, "participants", Arr([]), k);
    SetGet(r2, "costs", Arr([]), k);
    SetGet(r3, "createdAt", Date(Clock(now)), k);
    SetGet(r4, "date", Date(FromValue(Get(data, "date"))), k);
    SetGet(r5, "endDate", StoredEndDate(data), k);
  }

  /**
   * The server's code, empty participant and cost lists and creation time
   * override whatever the client sent; every other field is the client's.
   */
  lemma ServerFieldsOverride(data: Rec<Json>, code: string, now: int)
    ensures Get(StoredMeetup(data, code, now), "code") == Some(Str(code))
    ensures Get(StoredMeetup(data, code, now), "participants") == Some(Arr([]))
    ensures Get(StoredMeetup(data, code, now), "costs") == Some(Arr([]))
    ensures Get(StoredMeetup(data, code, now), "createdAt") == Some(Date(Clock(now)))
    ensures forall k :: !ServerKey(k) ==> Get(StoredMeetup(data, code, now), k) == Get(data, k)
  {
    StoredMeetupGet(data, code, now, "code");
    StoredMeetupGet(data, code, now, "participants");
    StoredMeetupGet(data, code, now, "costs");
    StoredMeetupGet(data, code, now, "createdAt");
    forall k | !ServerKey(k) ensures Get(StoredMeetup(data, code, now), k) == Get(data, k) {
      StoredMeetupGet(data, code, now, k);
    }
  }

  /** An omitted (or falsy) end date is stored as `null`. */
  lemma OmittedEndDateIsNull(data: Rec<Json>, code: string, now: int)
    requires !Truthy(Get(data, "endDate"))
    ensures Get(StoredMeetup(data, code, now), "endDate") == Some(Null)
  {
    StoredMeetupGet(data, code, now, "endDate");
  }

  /** `meetup.endDate ? meetup.endDate.toISOString() : null` on the stored value. */
  function ResponseEndDate(stored: Option<Json>): Json {
    match stored
    case Some(Date(d)) => IsoString(d)
    case _ => Null
  }

  /** The response body: `{...meetup, id, date, endDate, createdAt}` with ISO strings for dates. */
  function CreatedResponse(stored: Rec<Json>, id: string, now: int, data: Rec<Json>): (r: Rec<Json>)
    ensures Keys(stored) <= Keys(r)
  {
    var r1 := Set(stored, "id", Str(id));
    var r2 := Set(r1, "date", IsoString(FromValue(Get(data, "date"))));
    var r3 := Set(r2, "endDate", ResponseEndDate(Get(stored, "endDate")));
    Set(r3, "createdAt", IsoString(Clock(now)))
  }

  /** What each key of the response holds. */
  lemma CreatedResponseGet(stored: Rec<Json>, id: string, now: int, data: Rec<Json>, k: string)
    ensures Get(CreatedResponse(stored, id, now, data), k) ==
      if k == "createdAt" then Some(IsoString(Clock(now)))
      else if k == "endDate" then Some(ResponseEndDate(Get(stored, "endDate")))
      else if k == "date" then Some(IsoString(FromValue(Get(data, "date"))))
      else if k == "id" then Some(Str(id))
      else Get(stored, k)
  {
    var r1 := Set(stored, "id", Str(id));
    var r2 := Set(r1, "date", IsoString(FromValue(Get(data, "date"))));
    var r3 := Set(r2, "endDate", ResponseEndDate(Get(stored, "endDate")));
    SetGet(stored, "id", Str(id), k);
    SetGet(r1, "date", IsoString(FromValue(Get(data, "date"))), k);
    SetGet(r2, "endDate", ResponseEndDate(Get(stored, "endDate")), k);
    SetGet(r3, "createdAt", IsoString(Clock(now)), k);
  }

  /**
   * The response carries the store's document id, even when the client sent
   * an `id` of its own, and otherwise the stored fields.
   */
  lemma ResponseCarriesId(data: Rec<Json>, code: string, now: int, id: string)
    ensures var resp := CreatedResponse(StoredMeetup(data, code, now), id, now, data);
      && Get(resp, "id") == Some(Str(id))
      && Get(resp, "code") == Some(Str(code))
      && Get(resp, "createdAt") == Some(IsoString(Clock(now)))
      && (Truthy(Get(data, "endDate")) ==> Get(resp, "endDate") == Some(IsoString(FromValue(Get(data, "endDate")))))
      && (!Truthy(Get(data, "endDate")) ==> Get(resp, "endDate") == Some(Null))
      && forall k :: !ServerKey(k) && k != "id" ==> Get(resp, k) == Get(data, k)
  {
    var stored := StoredMeetup(data, code, now);
    CreatedResponseGet(stored, id, now, data, "id");
    CreatedResponseGet(stored, id, now, data, "code");
    CreatedResponseGet(stored, id, now, data, "createdAt");
    CreatedResponseGet(stored, id, now, data, "endDate");
    StoredMeetupGet(data, code, now, "code");
    StoredMeetupGet(data, code, now, "endDate");
    assert ResponseEndDate(Get(stored, "endDate")) ==
      if Truthy(Get(data, "endDate")) then IsoString(FromValue(Get(data, "endDate"))) else Null;
    ResponseCopiesClientFields(data, code, now, id);
  }

  /** A key the server does not set reaches the response as the client sent it. */
  lemma ResponseCopiesClientFields(data: Rec<Json>, code: string, now: int, id: string)
    ensures forall k :: !ServerKey(k) && k != "id" ==>
      Get(CreatedResponse(StoredMeetup(data, code, now), id, now, data), k) == Get(data, k)
  {
    var stored := StoredMeetup(data, code, now);
    forall k | !ServerKey(k) && k != "id"
      ensures Get(CreatedResponse(stored, id, now, data), k) == Get(data, k)
    {
      CreatedResponseGet(stored, id, now, data, k);
      StoredMeetupGet(data, code, now, k);
    }
  }

  /** The meetups collection: the documents stored so far, with their ids. */
  class MeetupStore {
    var documents: seq<(string, Rec<Json>)>

    constructor ()
      ensures documents == []
    {
      documents := [];
    }

    /**
     * `POST`: draws the code, stores the record under `id` and returns the
     * response body.  Nothing checks that the code is unused.
     */
    method Create(data: Rec<Json>, random: seq<real>, now: int, id: string) returns (response: Rec<Json>)
      requires |random| >= CodeLength
      requires forall i :: 0 <= i < |random| ==> 0.0 <= random[i] < 1.0
      modifies this
      ensures exists code: string :: (|code| == CodeLength && (forall i :: 0 <= i < |code| ==> code[i] in Alphabet)
        && documents == old(documents) + [(id, StoredMeetup(data, code, now))]
        && response == CreatedResponse(StoredMeetup(data, code, now), id, now, data))
    {
      var code := GenerateMeetupCode(random);
      var meetup := StoredMeetup(data, code, now);
      documents := documents + [(id, meetup)];
      response := CreatedResponse(meetup, id, now, data);
    }
  }
}
