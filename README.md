# Meetup planner: a Dafny model of its decision logic

The meetup planner is a Next.js application. Users create meetups, join them
with a six-character code, vote on candidate dates, suggest shopping items and
split costs. Most of the code is rendering and Firestore plumbing. This project
models the parts that decide something:

- the lifecycle classifier of a meetup (upcoming, in progress, past) and the
  three sorted lists of the "my meetups" tab;
- the date-poll tally (counts, percentages, ordering, winners) and the
  per-user availability map;
- the per-person shopping amounts, the equal cost split and the cost-item
  draft list;
- the validators and list editors of the create, suggest, join, edit and
  sign-in forms, and the guard chain of the registration endpoint;
- the meetup-creation record and its six-character code;
- the string and collection helpers of `lib/utils.ts` and `lib/maps-utils.ts`,
  and the translation lookup with its key fallback.

There is one Dafny module per source file, plus a few shared modules:

- `Wrappers`: `Option`.
- `Strings`: JavaScript `trim`, whitespace and ASCII case mapping.
- `Records`: a JavaScript object, modelled as a list of entries in insertion
  order. Assigning a key replaces its entry where it stands, or appends one.
- `Seqs`: small sequence facts and `RemoveAt`.
- `Sorting`: a stable sort by a real key, as `Array.prototype.sort` is.
- `Types`: the records of `lib/types.ts`.

React components with state are classes whose fields are the `useState`
values. Their handlers are methods, and what a handler computes without
touching state is a function.

Everything outside the program becomes a parameter:

- The clock is an integer minute `now`. Time values are minutes.
- `Math.random()` draws are a sequence of reals in [0, 1).
- The result of a `fetch` is a parameter (`ok`, or a `Response` value).
- The new document id and `hashPassword` are parameters.
- A translation function `t` is a parameter where a form calls it.

Numbers that JavaScript holds as doubles (amounts, percentages, shares) are
reals.

Some results the proofs show about the code as written:

- The create-meetup form's validation messages are translation keys that
  neither table defines. `t` then returns the key itself, so the form shows
  "titleRequired" rather than a sentence (`CreateMeetupForm.MessageIsKey`).
- The sign-in form tests blankness on the trimmed text but length on the
  text as typed, so "  a" passes as a username
  (`AuthForm.PaddedUsernameAccepted`).
- The registration endpoint reads the clock twice. The stored `createdAt` and
  the one in the response are two separate parameters.
- The meetup code is not checked for uniqueness anywhere. Every code over the
  alphabet can be drawn (`MeetupsRoute.EveryCodeReachable`), and nothing more
  is claimed.

## Model

| member | source | states |
|---|---|---|
| `Strings.SplitFirstTwo` | lib/meetup-utils.ts:6 | `time.split(":")[0]` and `[1]`: the first part is a separator-free prefix; the second is present iff the separator occurs, is separator-free, and runs up to the next separator or the end. |
| `MeetupUtils.DigitPrefixOfDigits` | lib/meetup-utils.ts:6 | A string of digits is its own digit prefix. |
| `MeetupUtils.DigitPrefix` | lib/meetup-utils.ts:6 | The longest run of decimal digits at the start of a string, as `parseInt` reads it. |
| `MeetupUtils.ParseInt` | lib/meetup-utils.ts:6 | `Number.parseInt` gives NaN exactly when no digit follows the leading whitespace and sign. |
| `MeetupUtils.ParseIntOfDigits` | lib/meetup-utils.ts:6 | A non-empty digit string parses to the number it denotes. |
| `MeetupUtils.HourMinute` | lib/meetup-utils.ts:6 | An hour and minute is read only from a time that contains ':'. |
| `MeetupUtils.HourMinuteOfDigits` | lib/meetup-utils.ts:6 | "H:M" with digit strings H and M gives hour H and minute M. |
| `MeetupUtils.DayStart` | lib/meetup-utils.ts:5-6 | The local midnight of the date's day: at or before it, less than a day before, on a day boundary. |
| `MeetupUtils.SetHours` | lib/meetup-utils.ts:6 | `setHours(h, m, 0, 0)` gives a valid instant iff both numbers parsed; otherwise an Invalid Date. |
| `MeetupUtils.StartOfWellFormedTime` | lib/meetup-utils.ts:5-6 | For an "HH:MM" time the start instant is the day's midnight plus HH hours and MM minutes. |
| `MeetupUtils.DefaultEndIsThreeHours` | lib/meetup-utils.ts:9-16 | With no end date or end time the meetup is in progress exactly from its start to three hours later, both inclusive. |
| `MeetupUtils.Classify` | lib/meetup-utils.ts:18-24 | Upcoming iff now is before the start; in progress iff start ≤ now ≤ end; past otherwise. Any comparison with an Invalid Date is false. |
| `MeetupUtils.StartInstant` | lib/meetup-utils.ts:5-6 | The start is a valid instant iff hours and minutes parse from the time (`StartOfWellFormedTime` gives its value). |
| `MeetupUtils.EndInstant` | lib/meetup-utils.ts:8-16 | With an explicit end date and time, valid iff that time parses; otherwise valid iff the start is, and then exactly three hours after it. |
| `MeetupUtils.GetMeetupStatus` | lib/meetup-utils.ts:3-25 | An invalid start is always past; an invalid end is never in progress (`StatusMeaning` gives the full iff). |
| `MeetupUtils.StatusMeaning` | lib/meetup-utils.ts:3-25 | `getMeetupStatus` is upcoming iff the start is valid and after now, and in progress iff both instants are valid and now lies between them, inclusive. |
| `MeetupUtils.BoundariesAreInProgress` | lib/meetup-utils.ts:20-21 | At the exact start and the exact end minute the meetup is in progress. |
| `MeetupUtils.EndBeforeStartNeverInProgress` | lib/meetup-utils.ts:9-11 | If the end precedes the start, or either is invalid, the meetup is never in progress. |
| `MeetupUtils.StatusMonotoneInTime` | lib/meetup-utils.ts:18-24 | As the clock moves forward the status never moves backward (upcoming, then in progress, then past). |
| `MeetupUtils.FormatTimeRange` | lib/meetup-utils.ts:61-67 | The time alone when the end time is missing or empty, else "time - endTime". |
| `MyMeetupsTab.SplitByStatus` | components/my-meetups-tab.tsx:160-173 | The `forEach` loop pushes each meetup onto the list of its status. The three lists are the order-preserving selections of each status. |
| `MyMeetupsTab.BucketStep` | components/my-meetups-tab.tsx:166-172 | One loop step appends the meetup to its own status's list and leaves the other two lists alone. |
| `MyMeetupsTab.BucketStatus` | components/my-meetups-tab.tsx:165-172 | Every meetup in a list is an input meetup with that list's status. |
| `MyMeetupsTab.BucketsPartition` | components/my-meetups-tab.tsx:159-173 | The three lists together are a permutation of the input, as multisets. |
| `MyMeetupsTab.InOwnBucket` | components/my-meetups-tab.tsx:165-172 | Every input meetup lands in the list of its own status. |
| `MyMeetupsTab.CategorizeMeetups` | components/my-meetups-tab.tsx:159-189 | The result is the three status lists, each sorted by its own key. |
| `MyMeetupsTab.CategorizedPartition` | components/my-meetups-tab.tsx:159-189 | After sorting, the three lists are still a permutation of the input. |
| `MyMeetupsTab.SortedBucket` | components/my-meetups-tab.tsx:176-186 | Sorting keeps every list homogeneous: each element has that list's status. |
| `MyMeetupsTab.CategorizedOrder` | components/my-meetups-tab.tsx:175-186 | Upcoming is ascending by date. In progress is ascending by end date, or date when there is no end date. Past is descending by date. |
| `MyMeetupsTab.StartKeyOrder` | components/my-meetups-tab.tsx:174-175 | Sorting by the start key orders meetups by date, ascending. |
| `MyMeetupsTab.RecentFirstKeyOrder` | components/my-meetups-tab.tsx:184-185 | Sorting by the negated date orders meetups by date, descending. |
| `Sorting.SortBy` | components/my-meetups-tab.tsx:176-186 | The result is sorted by the key and is a permutation of the input. |
| `Sorting.SortByStable` | components/date-poll.tsx:89-96 | The sort is stable: the elements with any one key value keep their relative order. |
| `Types.HeadCount` | components/my-meetups-tab.tsx:266 | The head count is the participants plus the host: at least 1, and one more than the participant list. |
| `DatePoll.ForDate` | components/date-poll.tsx:74 | Exactly the records of the given date id are kept. |
| `DatePoll.Answered` | components/date-poll.tsx:75-76 | Exactly the records with the given `available` flag are kept. |
| `DatePoll.Usernames` | components/date-poll.tsx:84-85 | One username per record, in record order. |
| `DatePoll.AnsweredSplit` | components/date-poll.tsx:75-77 | Available plus unavailable equals the total. |
| `DatePoll.ForDateIdempotent` | components/date-poll.tsx:74 | Filtering by date twice is filtering once. |
| `DatePoll.ForDateAppend` | components/date-poll.tsx:74 | The filter distributes over concatenation. |
| `DatePoll.ForDateNone` | components/date-poll.tsx:74 | A date no record names gets no records. |
| `DatePoll.Percent` | components/date-poll.tsx:83 | available/total·100 when total > 0, else 0. It always lies in [0, 100], and it is positive iff someone is available. |
| `DatePoll.Percentage` | components/date-poll.tsx:83 | A candidate's percentage lies in [0, 100]. |
| `DatePoll.GetDateStats` | components/date-poll.tsx:73-87 | Total is the number of records for the date, available + unavailable = total, the user lists have the counts' lengths, and the percentage is `Percent`. |
| `DatePoll.StatsUsers` | components/date-poll.tsx:84-85 | The user lists are the usernames of the matching records, in record order, and contain a name iff such a record exists. |
| `DatePoll.OnlyOwnRecordsCount` | components/date-poll.tsx:74 | Records of other dates, before or after, change nothing in a date's stats. |
| `DatePoll.SortedDates` | components/date-poll.tsx:89-96 | A permutation of the candidates: by descending percentage in results mode, by ascending date otherwise. |
| `DatePoll.SortedDatesStable` | components/date-poll.tsx:89-96 | Candidates with equal keys keep their original order. |
| `DatePoll.MaxPercentage` | components/date-poll.tsx:139 | `Math.max` over the candidates: an upper bound that some candidate reaches. |
| `DatePoll.WinnerIff` | components/date-poll.tsx:136-139 | A date wins iff results are shown, its percentage is positive and no candidate has more. |
| `DatePoll.AtLeastMaxIff` | components/date-poll.tsx:136-139 | A value is at least the maximum percentage of the sorted dates iff it bounds every candidate's percentage. |
| `DatePoll.TiesAllWin` | components/date-poll.tsx:136-139 | Every candidate tied with a winner is a winner too. |
| `DatePoll.NoVotesNoWinner` | components/date-poll.tsx:136-139 | When every percentage is 0 there is no winner. |
| `DatePoll.SomeoneWins` | components/date-poll.tsx:136-139 | In results mode, if any candidate has a positive percentage, some candidate wins. |
| `DatePoll.VotersBounds` | components/date-poll.tsx:110 | The distinct-voter count is at most the number of records, and at least 1 when there is a record. |
| `DatePoll.Voters` | components/date-poll.tsx:110 | Every record's participant id is among the voters (`VotersBounds` bounds their number). |
| `DatePoll.VotersAppend` | components/date-poll.tsx:110 | One more record adds exactly its participant id to the voters. |
| `DatePoll.RepeatVoterNotCounted` | components/date-poll.tsx:110 | A further record from a participant who already answered leaves the count unchanged. |
| `DatePoll.NewVoterCounted` | components/date-poll.tsx:110 | A participant's first record raises the count by one. |
| `DatePoll.Render` | components/date-poll.tsx:69-71 | Nothing is shown without candidates. Otherwise there is one row per candidate, a summary iff in results mode, and the finalize button iff host, results view, not finalized and some vote. |
| `DatePoll.RenderRows` | components/date-poll.tsx:130-139 | Row i shows the i-th sorted candidate, its stats and its winner mark. |
| `DatePoll.RenderSummary` | components/date-poll.tsx:106-116 | "No votes yet" iff there are no records; otherwise the count of distinct participant ids among the records, which lies between 1 and the number of records. |
| `DateAvailabilityForm.FindOwn` | components/date-availability-form.tsx:30 | `find` returns the first record of this date by this user, or none when there is no such record. |
| `DateAvailabilityForm.InitialAvailabilities` | components/date-availability-form.tsx:27-34 | The loop's map has one entry per candidate id and distinct keys. Each entry is the flag of the user's first record for that date, or false. |
| `DateAvailabilityForm.InitialMapFacts` | components/date-availability-form.tsx:28-33 | At every step of the loop the keys are distinct, exactly the ids seen so far, and each value is the initial answer. |
| `DateAvailabilityForm.SetKeepsInvariant` | components/date-availability-form.tsx:29-32 | One iteration keeps the keys distinct, adds exactly the candidate's id, and stores its initial answer. |
| `DateAvailabilityForm.OwnRecords` | components/date-availability-form.tsx:30 | Exactly the records of the signed-in user. |
| `DateAvailabilityForm.OthersIgnored` | components/date-availability-form.tsx:30 | Other participants' records never affect the initial answer. |
| `DateAvailabilityForm.SignedOutAllFalse` | components/date-availability-form.tsx:30-31 | Without a user every initial answer is false. |
| `DateAvailabilityForm.AvailabilityForm.constructor` | components/date-availability-form.tsx:27-34 | The state starts as the initial map of the candidates and existing records. |
| `DateAvailabilityForm.AvailabilityForm.HandleAvailabilityChange` | components/date-availability-form.tsx:36-41 | The given date now has the given flag, every other entry is unchanged, and an existing key keeps its place. |
| `DateAvailabilityForm.Entries` | components/date-availability-form.tsx:54-57 | One `{dateId, available}` per map entry, in key order. |
| `DateAvailabilityForm.AvailabilityForm.Submit` | components/date-availability-form.tsx:43-58 | No request without a user. Otherwise the payload carries the user's id and name and one entry per map entry. |
| `DateAvailabilityForm.AvailabilityForm.Render` | components/date-availability-form.tsx:85-137 | Nothing without candidates. Otherwise one row per candidate, with "available" active iff the map holds true and "not available" active iff it holds false. |
| `MeetupDetails.CalculateShoppingAmounts` | components/meetup-details.tsx:315-324 | Empty without a meetup. Otherwise one entry per item, in order, with the item unchanged and its amount scaled by the head count iff it is per person. |
| `MeetupDetails.OneMorePortion` | components/meetup-details.tsx:318-322 | One more participant adds exactly one base amount to a per-person item and nothing to the others. |
| `MeetupDetails.SumTotalsSnoc` | components/meetup-details.tsx:329 | The total cost grows by a new cost's total. |
| `MeetupDetails.SumTotals` | components/meetup-details.tsx:329 | No costs sum to 0, and non-negative totals give a non-negative sum (`SumTotalsSnoc` gives the step). |
| `MeetupDetails.SumIgnoresItems` | components/meetup-details.tsx:329 | The total depends only on the stored totals, not on the items. |
| `MeetupDetails.CalculateCostSplit` | components/meetup-details.tsx:326-340 | {0, 0, []} without a meetup. Otherwise the total is the sum of the stored totals, the share times the head count is the total, and the breakdown is the cost list. |
| `MeetupDetails.SplitIgnoresItems` | components/meetup-details.tsx:329-333 | Costs with the same totals give the same total and share, whatever their items and `sharedWith`. |
| `MeetupDetails.NewCostRaisesShare` | components/meetup-details.tsx:329-333 | A new cost raises the total by its total and the share by its total over the head count. |
| `MeetupDetails.ValidItems` | components/meetup-details.tsx:267 | Exactly the items with a non-blank name and a positive amount are kept. |
| `MeetupDetails.ValidItemsAllValid` | components/meetup-details.tsx:267 | A list of valid items passes the filter unchanged. |
| `MeetupDetails.ValidItemsIdempotent` | components/meetup-details.tsx:267 | Filtering twice is filtering once. |
| `MeetupDetails.ApplyEdit` | components/meetup-details.tsx:260 | `{ ...item, [field]: value }` changes the named field only. |
| `MeetupDetails.Normalize` | components/meetup-details.tsx:109-131 | Field by field: a present field keeps its value; a missing text (title, description, location, time, host id, host name, code) becomes "", a missing collection `[]`, a missing flag false, a missing vote count 0. The id, the date and `createdAt` are kept, and the record has no end date or end time. |
| `MeetupDetails.NormalizeComplete` | components/meetup-details.tsx:109-131 | A complete record passes unchanged except that its end date and end time are dropped. |
| `MeetupDetails.NormalizeIdempotent` | components/meetup-details.tsx:109-131 | Normalising a normalised record changes nothing. |
| `MeetupDetails.MeetupDetailsState.constructor` | components/meetup-details.tsx:44-57 | No meetup yet, one blank cost item, the cost form hidden. |
| `MeetupDetails.MeetupDetailsState.ReceiveMeetup` | components/meetup-details.tsx:98-133 | A successful fetch stores the normalised meetup. A failed one keeps the old state. |
| `MeetupDetails.MeetupDetailsState.AddCostItem` | components/meetup-details.tsx:251-256 | Exactly one blank item `{"", 0, []}` is appended. |
| `MeetupDetails.MeetupDetailsState.UpdateCostItem` | components/meetup-details.tsx:258-262 | Only the item at the index changes, and only in the named field. The length is kept. |
| `MeetupDetails.MeetupDetailsState.SubmitCost` | components/meetup-details.tsx:264-313 | No request without a user, a meetup or a valid item. Otherwise the request carries the user and exactly the valid items, and success resets the draft and hides the form. |
| `CreateMeetupForm.CompleteOptions` | components/create-meetup-form.tsx:81 | Exactly the options with both a date and a time are kept. |
| `CreateMeetupForm.FirstCompleteOption` | components/create-meetup-form.tsx:192-195 | The first kept option is the earliest complete option of the list. |
| `CreateMeetupForm.MapsLinkAccepted` | components/create-meetup-form.tsx:68-73 | A Google Maps link is an accepted location. |
| `CreateMeetupForm.PlainHttpRefused` | components/create-meetup-form.tsx:71-73 | An "http://" location gets the maps-link error. |
| `CreateMeetupForm.OtherTextAccepted` | components/create-meetup-form.tsx:68-73 | Non-blank text that does not start with "http" is accepted. |
| `CreateMeetupForm.ErrorsFor` | components/create-meetup-form.tsx:63-89 | An error record built by these rules is empty iff the form meets every rule. |
| `CreateMeetupForm.ValidateForm` | components/create-meetup-form.tsx:63-89 | The error record has at most one message per field, as the checks in their order set them. The form is valid iff the record is empty, iff the form meets every rule. |
| `CreateMeetupForm.NoErrorsIffValid` | components/create-meetup-form.tsx:87-88 | Any error record built by the rules is empty iff the form is valid. |
| `CreateMeetupForm.MessageIsKey` | components/create-meetup-form.tsx:66-83 | Every validation message key is missing from both tables, so `t` returns the key itself. |
| `CreateMeetupForm.WithoutItem` | components/create-meetup-form.tsx:134 | Exactly the items whose id differs are kept. |
| `CreateMeetupForm.WithoutAbsentItem` | components/create-meetup-form.tsx:134 | Removing an id no item has changes nothing. |
| `CreateMeetupForm.WithoutItemAppend` | components/create-meetup-form.tsx:134 | The filter keeps order: it distributes over appending an item. |
| `CreateMeetupForm.BuildMeetupRequest` | components/create-meetup-form.tsx:162-215 | The request copies the form, the host and the list. In poll mode the date, time and end time come from the first complete option, the candidates are exactly the complete options, and polling is on. Otherwise the form's own date is used and polling is off. |
| `CreateMeetupForm.ValidFormBuilds` | components/create-meetup-form.tsx:76-85 | A valid poll-mode form has a complete option to take the date from. |
| `CreateMeetupForm.CreateMeetupFormState.constructor` | components/create-meetup-form.tsx:27-61 | Empty form, no options, single-date mode, empty list, draft `{"", 1, "", food, false}`, no errors. |
| `CreateMeetupForm.CreateMeetupFormState.AddShoppingItem` | components/create-meetup-form.tsx:91-130 | A blank name is refused first, then a blank unit; a refusal changes nothing. A successful add appends one item with the fresh id and the draft fields, then resets the draft. |
| `CreateMeetupForm.CreateMeetupFormState.RemoveShoppingItem` | components/create-meetup-form.tsx:132-143 | The items with that id are dropped, the others keep their order, and no item with that id remains. |
| `CreateMeetupForm.CreateMeetupFormState.AddDateOption` | components/create-meetup-form.tsx:414-423 | One empty option with the fresh id is appended. |
| `CreateMeetupForm.CreateMeetupFormState.RemoveDateOption` | components/create-meetup-form.tsx:340-341 | The option at the index is removed and the others keep their order. |
| `CreateMeetupForm.CreateMeetupFormState.UpdateDateOption` | components/create-meetup-form.tsx:355-402 | Only the option at the index changes, and only in the edited field. |
| `CreateMeetupForm.CreateMeetupFormState.ToggleDateOptions` | components/create-meetup-form.tsx:319 | The mode flips and nothing else changes. |
| `CreateMeetupForm.CreateMeetupFormState.EditForm` | components/create-meetup-form.tsx:272-506 | A field input replaces the form and nothing else. |
| `CreateMeetupForm.CreateMeetupFormState.EditDraft` | components/create-meetup-form.tsx:521-559 | A draft input replaces the draft and nothing else. |
| `CreateMeetupForm.CreateMeetupFormState.HandleSubmit` | components/create-meetup-form.tsx:145-221 | A request is made iff there is a user and the form is valid, and it is the built request. With a user the stored errors are the rules' errors. |
| `ItemSuggestionForm.OnlyNameAndUnitChecked` | components/item-suggestion-form.tsx:36 | Only the name and the unit decide the gate. |
| `ItemSuggestionForm.DefaultsIncomplete` | components/item-suggestion-form.tsx:23-36 | The initial form cannot be submitted. |
| `ItemSuggestionForm.MakePayload` | components/item-suggestion-form.tsx:50-54 | The payload carries the user's id and username. |
| `ItemSuggestionForm.PayloadKeepsDraft` | components/item-suggestion-form.tsx:50-54 | Every form field is in the payload unchanged. |
| `ItemSuggestionForm.SuggestionFormState.constructor` | components/item-suggestion-form.tsx:21-30 | `{"", 1, "", food, false, ""}`, hidden. |
| `ItemSuggestionForm.SuggestionFormState.Open` | components/item-suggestion-form.tsx:94 | The form is shown, with its fields unchanged. |
| `ItemSuggestionForm.SuggestionFormState.Cancel` | components/item-suggestion-form.tsx:188 | The form is hidden, with its fields unchanged. |
| `ItemSuggestionForm.SuggestionFormState.Edit` | components/item-suggestion-form.tsx:119-180 | A field input replaces the draft. |
| `ItemSuggestionForm.SuggestionFormState.HandleSubmit` | components/item-suggestion-form.tsx:32-89 | A request is made iff there is a user and the name and unit are non-blank. The request is the payload. Only a successful request resets and hides the form. |
| `JoinMeetupForm.CodeInput` | components/join-meetup-form.tsx:158-161 | At most six characters, each the upper case of what was typed. |
| `JoinMeetupForm.CodeInputIdempotent` | components/join-meetup-form.tsx:158-161 | Re-entering the shown code changes nothing. |
| `JoinMeetupForm.LookupCode` | components/join-meetup-form.tsx:49 | The looked-up code is no longer than the typed one; its spelling, character by character, is `LookupCodeSpelling`. |
| `JoinMeetupForm.LookupCodeSpelling` | components/join-meetup-form.tsx:49 | `code.trim().toUpperCase()`: as long as the trimmed code, and character i is the upper case of the typed character just after the leading whitespace plus i; the trimmed code is that slice of the typed one. |
| `JoinMeetupForm.LookupQuery` | components/join-meetup-form.tsx:35-49 | There is no lookup iff the code is blank. Otherwise the lookup sends the non-empty, trimmed, upper-cased code. |
| `JoinMeetupForm.LookupCodeEmptyIffBlank` | components/join-meetup-form.tsx:35-49 | The looked-up code is empty iff the typed code is blank. |
| `JoinMeetupForm.LookupCodeTrimmed` | components/join-meetup-form.tsx:49 | The looked-up code neither starts nor ends with whitespace. |
| `JoinMeetupForm.LookupCodeUpper` | components/join-meetup-form.tsx:49 | The looked-up code has no lower-case ASCII letter. |
| `JoinMeetupForm.UpperKeepsWhitespace` | components/join-meetup-form.tsx:35-49 | Upper-casing a character never changes whether it is whitespace. |
| `JoinMeetupForm.UpperTrimStart` | components/join-meetup-form.tsx:49 | Removing leading whitespace commutes with upper-casing. |
| `JoinMeetupForm.UpperTrimEnd` | components/join-meetup-form.tsx:49 | Removing trailing whitespace commutes with upper-casing. |
| `JoinMeetupForm.TrimUpperCommute` | components/join-meetup-form.tsx:49 | `code.trim().toUpperCase()` equals `code.toUpperCase().trim()`. |
| `JoinMeetupForm.ErrorText` | components/join-meetup-form.tsx:53 | `data.error \|\| fallback`: the server's text when it is non-empty; never empty unless the fallback is. |
| `JoinMeetupForm.JoinFormState.constructor` | components/join-meetup-form.tsx:19-32 | Empty code, no meetup, answers with all flags false, a four-hour stay and empty texts, no error. |
| `JoinMeetupForm.JoinFormState.TypeCode` | components/join-meetup-form.tsx:158 | The code becomes the upper-cased input, capped at six characters. |
| `JoinMeetupForm.JoinFormState.EditAnswers` | components/join-meetup-form.tsx:221-276 | An answer input replaces the answers. |
| `JoinMeetupForm.JoinFormState.FindMeetup` | components/join-meetup-form.tsx:34-77 | A blank code makes no lookup and changes nothing. Otherwise the lookup uses the trimmed, upper-cased code, and stores the meetup on success or the error text on failure. |
| `JoinMeetupForm.JoinFormState.ReceiveMeetup` | components/join-meetup-form.tsx:51-73 | A found meetup is stored and the error cleared; a failure keeps the meetup and stores the response's error text, or "Meetup not found" without one. The code and the answers are unchanged. |
| `JoinMeetupForm.JoinFormState.JoinMeetup` | components/join-meetup-form.tsx:79-131 | A request is made iff there is a user, a found meetup and a join time. It goes to that meetup with the user's id, name and answers. A failure stores the error text. |
| `ParticipantEditModal.FlagOr` | components/participant-edit-modal.tsx:24-26 | `x \|\| false`: true iff the stored flag is true. |
| `ParticipantEditModal.DurationOr` | components/participant-edit-modal.tsx:27 | `x \|\| 4`: the stored duration, unless it is missing or zero, which fall back to 4. |
| `ParticipantEditModal.InitialForm` | components/participant-edit-modal.tsx:23-31 | Each field is the stored value, or false, 4, "" or [] when it is missing. |
| `ParticipantEditModal.InitialFormOfComplete` | components/participant-edit-modal.tsx:23-31 | A complete participant's answers pass unchanged, except that a zero stay becomes 4. |
| `ParticipantEditModal.UpdatePathKeyedByUser` | components/participant-edit-modal.tsx:40 | For one meetup, different participant ids give different update paths. |
| `ParticipantEditModal.UpdatePath` | components/participant-edit-modal.tsx:40 | The path starts with "/api/meetups/", ends with "/update" and has the ids' length plus the fixed text (`UpdatePathKeyedByUser`: distinct users get distinct paths). |
| `ParticipantEditModal.EditModalState.constructor` | components/participant-edit-modal.tsx:23-33 | The form is the initial form of the participant, and the item input is empty. |
| `ParticipantEditModal.EditModalState.EditAnswers` | components/participant-edit-modal.tsx:99-200 | An answer input replaces the form. |
| `ParticipantEditModal.EditModalState.TypeItem` | components/participant-edit-modal.tsx:174 | The item input holds the typed text. |
| `ParticipantEditModal.EditModalState.AddBringingItem` | components/participant-edit-modal.tsx:71-79 | Blank input is ignored. Otherwise the trimmed text is appended at the end and the input is cleared. |
| `ParticipantEditModal.AddedItemNotBlank` | components/participant-edit-modal.tsx:72-76 | An appended item is non-empty and not blank. |
| `ParticipantEditModal.EditModalState.RemoveBringingItem` | components/participant-edit-modal.tsx:81-86 | Only position i is removed, and the others keep their order. |
| `Seqs.RemoveAt` | components/participant-edit-modal.tsx:84 | `filter((_, i) => i !== index)`: one element fewer and the rest in order for an index in range; unchanged otherwise. |
| `ParticipantEditModal.EditModalState.HandleSubmit` | components/participant-edit-modal.tsx:35-44 | The whole form goes to the participant's update path. |
| `AuthForm.UsernameError` | components/auth-form.tsx:27-31 | "required" iff blank after trim; "too short" iff not blank and fewer than 3 characters as typed; none otherwise. |
| `AuthForm.FullNameError` | components/auth-form.tsx:33-37 | Only register mode checks the name: "required" iff blank, "too short" iff not blank and under 2 characters; no message iff login mode or a non-blank name of at least 2 characters. |
| `AuthForm.PasswordError` | components/auth-form.tsx:39-43 | "required" iff empty, untrimmed. "too short" iff register mode and 1 to 5 characters. No message iff non-empty and, in register mode, at least 6 characters. |
| `AuthForm.Validation` | components/auth-form.tsx:24-43 | The form is free of errors iff the username is non-blank with at least 3 characters, the password non-empty, and in register mode the name non-blank with at least 2 characters and the password at least 6 characters. |
| `AuthForm.RegisterStricterThanLogin` | components/auth-form.tsx:24-47 | Whatever register mode accepts, login mode accepts too. |
| `AuthForm.PaddedUsernameAccepted` | components/auth-form.tsx:27-31 | "  a" passes: blankness is tested on the trimmed text and length on the raw text. |
| `AuthForm.SpacePasswordAccepted` | components/auth-form.tsx:39-41 | A password of one space is not "required". |
| `AuthForm.AuthFormState.constructor` | components/auth-form.tsx:12-18 | Login mode, empty fields, no errors. |
| `AuthForm.AuthFormState.ToggleMode` | components/auth-form.tsx:158 | The mode flips; the fields and shown errors stay. |
| `AuthForm.AuthFormState.EditFields` | components/auth-form.tsx:104-133 | The inputs replace the fields. |
| `AuthForm.AuthFormState.ValidateForm` | components/auth-form.tsx:24-47 | The stored errors are the per-field rules for the current mode, and the form is valid iff there are none. |
| `AuthForm.AuthFormState.HandleSubmit` | components/auth-form.tsx:49-86 | A call is made iff the form is valid: login with username and password, or register with the full name too. The errors are cleared first. |
| `RegisterRoute.UserStore.constructor` | app/api/auth/register/route.ts:24 | The user collection starts empty. |
| `RegisterRoute.UserStore.Register` | app/api/auth/register/route.ts:7-55 | Each 400 response happens iff its guard fails and every earlier guard passes: missing field, short password, short full name, taken username. A failure stores nothing. Success appends one document with the hashed password, returns the user without it, and keeps usernames unique. |
| `RegisterRoute.RegisterKeepsUsernamesUnique` | app/api/auth/register/route.ts:24-41 | Inserting a username that is not taken keeps usernames unique. |
| `RegisterRoute.RegisteredIsTaken` | app/api/auth/register/route.ts:24-30 | After a registration the username is taken, so the same request fails. |
| `MeetupsRoute.AlphabetAt` | app/api/meetups/route.ts:41 | The alphabet is A-Z followed by 0-9: 36 characters. |
| `MeetupsRoute.AlphabetMembers` | app/api/meetups/route.ts:41 | A character is in the alphabet iff it is an ASCII capital or a digit. |
| `MeetupsRoute.IndexIn` | app/api/meetups/route.ts:41 | Every capital and digit has a position in the alphabet. |
| `MeetupsRoute.CharIndex` | app/api/meetups/route.ts:44 | `Math.floor(r * 36)` for r in [0, 1) is a valid position: the integer part of r·36. |
| `MeetupsRoute.GenerateMeetupCode` | app/api/meetups/route.ts:40-47 | Exactly six characters, each from the alphabet, each chosen by its own random draw. |
| `MeetupsRoute.DrawFor` | app/api/meetups/route.ts:44 | Every alphabet position has a draw in [0, 1) that selects it. |
| `MeetupsRoute.EveryCodeReachable` | app/api/meetups/route.ts:40-47 | Every six-character code over the alphabet is produced by some sequence of draws. |
| `MeetupsRoute.StoredMeetupGet` | app/api/meetups/route.ts:13-21 | The stored record has the code, empty participants and costs, the clock's `createdAt`, the request's date and the `endDate` rule; every other key has the request's value. |
| `MeetupsRoute.StoredMeetup` | app/api/meetups/route.ts:13-21 | The client's keys come first, in their order; server keys not sent by the client follow (`StoredMeetupGet` gives each value). |
| `MeetupsRoute.ServerFieldsOverride` | app/api/meetups/route.ts:13-18 | Code, participants, costs and `createdAt` override whatever the client sent; every other field is copied. |
| `MeetupsRoute.OmittedEndDateIsNull` | app/api/meetups/route.ts:20 | A missing or falsy `endDate` is stored as null. |
| `MeetupsRoute.ResponseCarriesId` | app/api/meetups/route.ts:27-33 | The response is the stored record plus the store's id, with dates as ISO strings and a null end date kept null. |
| `MeetupsRoute.CreatedResponse` | app/api/meetups/route.ts:27-33 | The stored record's keys keep their order at the front of the response (`CreatedResponseGet` gives each value). |
| `MeetupsRoute.CreatedResponseGet` | app/api/meetups/route.ts:27-33 | The response has the clock's `createdAt`, the request's date and the stored end date as ISO strings (null without one), the store's id, and every other stored key's value. |
| `MeetupsRoute.ResponseCopiesClientFields` | app/api/meetups/route.ts:13-33 | A key the server does not set reaches the response as the client sent it. |
| `MeetupsRoute.MeetupStore.constructor` | app/api/meetups/route.ts:24 | The meetup collection starts empty. |
| `MeetupsRoute.MeetupStore.Create` | app/api/meetups/route.ts:5-33 | Some six-character alphabet code is drawn, one document holding the stored record is added, and the response is built from it. |
| `MapsUtils.MapsLinkAnySuffix` | lib/maps-utils.ts:3-10 | The test is prefix-only: anything may follow a maps prefix. |
| `MapsUtils.PrefixesAreLinks` | lib/maps-utils.ts:3-10 | Each listed prefix is itself accepted. |
| `MapsUtils.HttpRejected` | lib/maps-utils.ts:3-8 | No "http://" URL is accepted. |
| `MapsUtils.LinksAreHttps` | lib/maps-utils.ts:3-10 | Every accepted URL starts with "https://". |
| `MapsUtils.FormatLocationDisplay` | lib/maps-utils.ts:13-26 | The link flag is set iff the location is a maps link. A link gets the fixed text and the url; other text is shown unchanged with no url. |
| `MapsUtils.IsValidGoogleMapsUrl` | lib/maps-utils.ts:2-11 | An accepted URL is at least as long as the shortest prefix (`LinksAreHttps`, `MapsLinkAnySuffix` give its shape). |
| `MapsUtils.DisplayKeepsLocation` | lib/maps-utils.ts:13-26 | The location can always be read back, from the url or the text. |
| `IntlProvider.T` | components/intl-provider.tsx:23-25 | The current language's entry when it is present and non-empty, else the key itself. |
| `IntlProvider.SameKeys` | lib/translations.ts:2-163 | The English and German tables define the same keys. |
| `IntlProvider.FallbackInBoth` | components/intl-provider.tsx:24 | A key missing from the tables falls back to itself in both languages. |
| `IntlProvider.ChangeLanguageFallsBack` | components/intl-provider.tsx:24 | "change_language" is not in the tables and is shown as its own key. |
| `IntlProvider.TitleTranslated` | lib/translations.ts:2-163 | "title" is "Title" in English and "Titel" in German. |
| `IntlProvider.Intl.constructor` | components/intl-provider.tsx:21 | The language starts as English. |
| `IntlProvider.Intl.SetLanguage` | components/intl-provider.tsx:21-25 | After switching, every lookup uses the new table. |
| `IntlProvider.Intl.Translate` | components/intl-provider.tsx:23-25 | `t(key)`: the current language's text when it is present and non-empty, else the key itself. |
| `Utils.Capitalize` | lib/utils.ts:126-128 | Same length; the first character is upper-cased and the rest is unchanged; "" gives "". |
| `Utils.CapitalizeIdempotent` | lib/utils.ts:126-128 | Capitalizing twice is capitalizing once. |
| `Utils.Substring` | lib/utils.ts:131 | `substring(0, n)` clamps n to the string and is a prefix. |
| `Utils.Truncate` | lib/utils.ts:130-132 | The first n characters plus "..." when the string is longer than n, else the string itself. |
| `Utils.TruncateShape` | lib/utils.ts:130-132 | The result is at most n + 3 characters and begins with the kept prefix. |
| `Utils.TruncateFits` | lib/utils.ts:130-132 | A string of at most n characters is returned unchanged. |
| `Utils.KeepWordSpaceDash` | lib/utils.ts:137 | Only word characters, whitespace and '-' are left, and an input with no capitals gives none. |
| `Utils.DropSeparators` | lib/utils.ts:138 | A run of separators is skipped: the rest is a suffix that starts with no separator. |
| `Utils.CollapseHead` | lib/utils.ts:138 | The collapsed text starts with '-' iff the input starts with a separator. |
| `Utils.CollapseChars` | lib/utils.ts:138 | Collapsing letters, digits and separators leaves letters, digits and '-' only. |
| `Utils.CollapseNoDoubleDash` | lib/utils.ts:138 | After collapsing, no two dashes are adjacent. |
| `Utils.DropLeadingDashes` | lib/utils.ts:139 | A suffix that does not start with '-'. |
| `Utils.DropTrailingDashes` | lib/utils.ts:139 | A prefix that does not end with '-'. |
| `Utils.KeptChars` | lib/utils.ts:136-137 | After lower-casing and filtering, only lower-case letters, digits and separators remain. |
| `Utils.StripGivesSlug` | lib/utils.ts:139 | Stripping the edge dashes of a collapsed text gives a slug. |
| `Utils.SlugifyIsSlug` | lib/utils.ts:134-140 | Every result uses only a-z, 0-9 and '-', has no leading or trailing '-', and no doubled '-'. |
| `Utils.Slugify` | lib/utils.ts:134-140 | The result has no '-' at either end (`SlugifyIsSlug` gives the full slug shape). |
| `Utils.CollapseOfSlugChars` | lib/utils.ts:138 | Collapsing leaves slug characters without doubled dashes as they are. |
| `Utils.KeepOfSlugChars` | lib/utils.ts:137 | The filter leaves slug characters as they are. |
| `Utils.SlugFixed` | lib/utils.ts:134-140 | A slug is its own slug. |
| `Utils.SlugifyIdempotent` | lib/utils.ts:134-140 | A second `slugify` changes nothing. |
| `Utils.EmailIffClauses` | lib/utils.ts:102-105 | Valid iff there is no whitespace, exactly one '@', a non-empty local part, and a '.' in the domain that is neither its first nor its last character. |
| `Utils.IsValidEmail` | lib/utils.ts:102-105 | A valid address has at least five characters, an '@' and a '.' (`EmailIffClauses` gives the full iff). |
| `Utils.TwoAtsInvalid` | lib/utils.ts:103 | An address with two '@' is never valid. |
| `Utils.FormatTimeFastPath` | lib/utils.ts:52-56 | The input is returned unchanged iff it is 1-2 digits, ':', 2 digits. |
| `Utils.FastPathTimesParse` | lib/utils.ts:54 | A time the fast path accepts is one the status classifier reads an hour and minute from. |
| `Utils.UniqueElements` | lib/utils.ts:158-160 | `unique` keeps exactly the elements of its input. |
| `Utils.Unique` | lib/utils.ts:158-160 | No longer than its input and, for a non-empty input, starting with its first element (`UniqueElements`, `UniqueNoDuplicates` give the rest). |
| `Utils.UniqueNoDuplicates` | lib/utils.ts:158-160 | `unique` has no duplicates. |
| `Utils.UniqueOfDistinct` | lib/utils.ts:158-160 | An input without duplicates comes back unchanged. |
| `Utils.UniquePrefix` | lib/utils.ts:158-160 | First-occurrence order: the result for a prefix is a prefix of the result for the whole. |
| `Utils.KeysOf` | lib/utils.ts:150 | `String(item[key])` for every item, in order. |
| `Utils.ItemsWithKey` | lib/utils.ts:149-152 | The items of one key: empty iff no item has that key. |
| `Utils.GroupsGet` | lib/utils.ts:146-156 | The group of a key is exactly the items with that key, in input order. A key no item has has no group. |
| `Utils.GroupsKeys` | lib/utils.ts:146-156 | The groups appear in the order their keys first occur, each once. |
| `Utils.SetTotalSize` | lib/utils.ts:151-152 | Assigning a group replaces the old group's size by the new one's. |
| `Utils.GroupsTotalSize` | lib/utils.ts:146-156 | The groups hold as many items as the input. |
| `Utils.GroupBy` | lib/utils.ts:146-156 | The `reduce` loop builds exactly these groups: distinct keys in first-occurrence order, each group its key's items, and the total count preserved. |
| `Utils.Omit` | lib/utils.ts:185-189 | Exactly the listed keys are gone, and every other key keeps its value and its place in the object's key order. Distinct keys stay distinct. |
| `Utils.Pick` | lib/utils.ts:191-199 | A key is present iff it is listed and present in the object, with the object's value; keys are distinct and in the order of the key list, each once (for keys that are not integer-like). |
| `Utils.PresentKeys` | lib/utils.ts:194-196 | The listed keys the object has, in list order: a key is in it iff it is listed and present. |
| `Records.Get` | components/date-availability-form.tsx:125 | `r[k]` is defined iff the object has the key. |
| `Records.Set` | components/date-availability-form.tsx:37-40 | Assigning an existing key keeps the key order; a new key is appended. |
| `Records.SetGet` | components/date-availability-form.tsx:37-40 | After `r[k] = v`, k reads v and every other key reads as before. |
| `Records.SetDistinct` | components/date-availability-form.tsx:37-40 | Assignment keeps keys distinct. |
| `Records.Delete` | lib/utils.ts:187 | After `delete r[k]` the key is absent. |
| `Records.DeleteGet` | lib/utils.ts:187 | After `delete r[k]`, k reads undefined and every other key reads as before. |
| `Records.DeleteKeys` | lib/utils.ts:187 | `delete` removes that key and no other. |
| `Records.DeleteDistinct` | lib/utils.ts:187 | `delete` keeps keys distinct. |
| `Records.DeleteKeyOrder` | lib/utils.ts:187 | `delete` leaves the other keys in their order. |
| `Strings.Trim` | components/auth-form.tsx:27 | `trim()` removes whitespace at both ends: the result starts and ends with non-whitespace. Which slice it is, `TrimSpan` states. |
| `Strings.TrimSpan` | components/join-meetup-form.tsx:35 | `trim()` is the slice of the input between its leading and its trailing whitespace: everything before the slice and everything after it is whitespace. |
| `Strings.BlankIffTrimEmpty` | components/auth-form.tsx:27 | `!s.trim()` holds iff every character is whitespace. |
| `Strings.TrimStart` | lib/meetup-utils.ts:6 | The leading whitespace `parseInt` skips: the result is the suffix after a run of whitespace and starts with non-whitespace. |
| `Strings.TrimEnd` | components/join-meetup-form.tsx:49 | The trailing half of `trim()`: the result is a prefix followed by whitespace only and ends with non-whitespace. |
| `Strings.IndexOf` | lib/meetup-utils.ts:6 | The first position of the character, or none iff it does not occur. |
| `Strings.ToUpper` | components/join-meetup-form.tsx:158 | Each character is upper-cased; the length is kept. |
| `Strings.ToUpperIdempotent` | components/join-meetup-form.tsx:158 | Upper-casing twice is upper-casing once. |
| `Strings.ToLower` | lib/utils.ts:136 | Each character is lower-cased; the length is kept. |

## Left out

- Network and persistence: every `fetch`, toast, refresh and callback is
  outside the model. A request's outcome is a parameter. Firestore is an
  abstract list of documents: the users collection in `RegisterRoute`, the
  meetups collection in `MeetupsRoute`.
- The server routes that finalize a date, accept or reject a suggestion,
  store availability, join, leave and update a participant are not part of
  this model; only the requests the components send to them are.
- `hashPassword`, `verifyPassword`, `uuidv4` and `generateId` are foreign
  calls: the hash is an uninterpreted function, ids are parameters.
- `RegisterRoute.UserStore.Register`: the route's request fields are
  modelled as optional strings. A non-string JSON value (a number, say) is
  not modelled. Neither is the 500 response to an exception.
- `RegisterRoute.UserStore.Register`: requests are handled one at a time.
  The source queries for the username and then calls `addDoc` without a
  transaction (route.ts lines 25-41), so two concurrent requests for one
  name can both succeed; uniqueness is proved for sequential requests only.
- `MeetupsRoute.MeetupStore.Create`: an unparsable `date`, or a truthy but
  unparsable `endDate`, makes `toISOString` throw in the source (lines 30
  and 31, a 500 response); the model keeps date values abstract and does
  not model that failure. The code's uniqueness is
  not enforced by the source and is not claimed.
- JavaScript `Date` and `Intl`: instants are integer minutes in one time
  zone. `toLocaleDateString`, the date range formatter, `toISOString`'s text
  and the date-only helpers are not modelled.
- `JoinMeetupForm.LookupCode`: its own contract gives only the length
  bound. The character-by-character spelling is the lemma
  `LookupCodeSpelling`, kept out of the function's contract so that the
  proofs of its callers stay small.
- `Strings.Trim`: its own contract gives the non-whitespace ends. Which
  slice of the input it returns is the lemma `TrimSpan`, for the same
  reason.
- `MeetupUtils.ParseInt`: reads decimal digits only. The model does not
  cover hexadecimal prefixes or digit strings beyond double precision.
- Floating point: percentages, shares and scaled amounts are reals. Display
  rounding (`toFixed`, `Math.round`) is out. `Number("")` and NaN from number
  inputs are not modelled.
- Case mapping is ASCII only. JavaScript maps every Unicode letter, and a
  few non-ASCII letters lower-case to ASCII (the Kelvin sign to "k"), which
  `slugify` would then keep. Strings are sequences of Unicode scalar values,
  not UTF-16 code units.
- `MyMeetupsTab.CategorizeMeetups`: the three arrays are sorted in place in
  the source. The model sorts sequences, so it does not capture aliasing of
  those arrays. The comparators are modelled by the key they subtract.
- `CreateMeetupForm.CreateMeetupFormState.UpdateDateOption`: the source
  assigns into an option object shared with the previous state array. The
  model updates by value, so the change's visibility through the old array
  is not modelled.
- `CreateMeetupForm.BuildMeetupRequest`: candidate dates are sent with
  `new Date(d.date)` in place of the date text. The model keeps the text.
  The shopping-list and option toasts call `interpolate`, which
  lib/translations.ts does not define; the toasts are not modelled.
- `IntlProvider.T`: the table only; `useIntl`'s context error and the
  `Language` type's other values are not modelled.
- Utils: `debounce`, `throttle`, `sleep`, `randomChoice`, `parseJSON`,
  `formatCurrency`, `formatNumber`, `formatDate` and the `Date` branch of
  `formatTime` are out, as are `cn` and `extractLocationName` (library
  parsing).
- `Utils.GroupBy`: JavaScript lists integer-like keys of an object first, in
  numeric order. The model lists keys in insertion order only.
- `Utils.GroupBy`: a key inherited from `Object.prototype` ("toString",
  "constructor", "__proto__") finds a truthy non-array in the fresh object,
  so `groups[group].push` throws in the source (lines 150-151). The model
  makes an ordinary group for such a key.
- `Utils.Pick`: the key order it states (the order of the key list) holds
  for keys that are not integer-like. JavaScript lists integer-like keys
  ("1", "42") of any object first, in numeric order, so for such keys the
  source's order differs. More generally, every object built through
  `Records` lists its keys in insertion order, which is JavaScript's order
  only when no key is integer-like.
- `Utils.Pick`: `key in obj` also finds inherited properties such as
  "toString". The model only looks at the object's own entries.
- Rendering: modals, the header, the dashboard, the theme provider and the
  page layout are pure view code.
