/**
 * The meetup details page (components/meetup-details.tsx): the fetched
 * meetup is normalised, shopping amounts are scaled by the head count, the
 * costs are split equally, and a draft list of cost items is edited and
 * filtered before it is submitted.
 */
module MeetupDetails {

  import opened Wrappers
  import opened Strings
  import opened Types
  import Seqs

  // ---------------------------------------------------------------------------
  // Shopping amounts

  /** A shopping item with the amount to buy for the current head count. */
  datatype ScaledItem = ScaledItem(item: ShoppingItem, calculatedAmount: real)

  function Scale(item: ShoppingItem, headCount: nat): real {
    if item.perPerson then item.baseAmount * headCount as real else item.baseAmount
  }

  /** `calculateShoppingAmounts()`: empty without a meetup. */
  function CalculateShoppingAmounts(meetup: Option<Meetup>): (r: seq<ScaledItem>)
    ensures meetup.None? ==> r == []
    ensures meetup.Some? ==> |r| == |meetup.value.shoppingList|
    ensures meetup.Some? ==> forall i :: 0 <= i < |r| ==>
      && r[i].item == meetup.value.shoppingList[i]
      && r[i].calculatedAmount == (if r[i].item.perPerson
                                   then r[i].item.baseAmount * (|meetup.value.participants| + 1) as real
                                   else r[i].item.baseAmount)
  {
    match meetup
    case None => []
    case Some(m) =>
      var n := HeadCount(m.participants);
      seq(|m.shoppingList|, i requires 0 <= i < |m.shoppingList| => ScaledItem(m.shoppingList[i], Scale(m.shoppingList[i], n)))
  }

  /**
   * One more participant adds exactly one portion to every per-person item
   * and changes nothing else.
   */
  lemma OneMorePortion(m: Meetup, p: Participant, i: nat)
    requires i < |m.shoppingList|
    ensures var before := CalculateShoppingAmounts(Some(m))[i];
      var after := CalculateShoppingAmounts(Some(m.(participants := m.participants + [p])))[i];
      && after.item == before.item
      && after.calculatedAmount == before.calculatedAmount + (if before.item.perPerson then before.item.baseAmount else 0.0)
  {
    var item := m.shoppingList[i];
    var n := |m.participants| + 1;
    assert item.baseAmount * (n + 1) as real == item.baseAmount * n as real + item.baseAmount;
  }

  // ---------------------------------------------------------------------------
  // Cost split

  datatype CostSplit = CostSplit(totalCost: real, userShare: real, breakdown: seq<Cost>)

  /** `costs.reduce((sum, cost) => sum + cost.total, 0)`, a left fold. */
  function SumTotals(costs: seq<Cost>): (r: real)
    ensures costs == [] ==> r == 0.0
    ensures (forall i :: 0 <= i < |costs| ==> costs[i].total >= 0.0) ==> r >= 0.0
  {
    if costs == [] then 0.0 else SumTotals(costs[..|costs| - 1]) + costs[|costs| - 1].total
  }

  lemma SumTotalsSnoc(costs: seq<Cost>, c: Cost)
    ensures SumTotals(costs + [c]) == SumTotals(costs) + c.total
  {
    assert (costs + [c])[..|costs|] == costs;
  }

  /** The stored totals alone decide the sum; the items are never re-added. */
  lemma {:induction false} SumIgnoresItems(costs: seq<Cost>, others: seq<Cost>)
    requires |costs| == |others|
    requires forall i :: 0 <= i < |costs| ==> costs[i].total == others[i].total
    ensures SumTotals(costs) == SumTotals(others)
  {
    if costs != [] {
      SumIgnoresItems(costs[..|costs| - 1], others[..|others| - 1]);
    }
  }

  /** `calculateCostSplit()`: an equal split over participants plus host, `{0, 0, []}` without a meetup. */
  function CalculateCostSplit(meetup: Option<Meetup>): (r: CostSplit)
    ensures meetup.None? ==> r == CostSplit(0.0, 0.0, [])
    ensures meetup.Some? ==> r.totalCost == SumTotals(meetup.value.costs)
    ensures meetup.Some? ==> r.userShare * (|meetup.value.participants| + 1) as real == r.totalCost
    ensures meetup.Some? ==> r.breakdown == meetup.value.costs
  {
    match meetup
    case None => CostSplit(0.0, 0.0, [])
    case Some(m) =>
      var total := SumTotals(m.costs);
      var n := HeadCount(m.participants) as real;
      var share := total / n;
      assert share * n == total;
      CostSplit(total, share, m.costs)
  }

  /**
   * Only the stored totals and the head count decide the split: items and
   * `sharedWith` of the costs play no part.
   */
  lemma SplitIgnoresItems(m: Meetup, costs: seq<Cost>)
    requires |costs| == |m.costs|
    requires forall i :: 0 <= i < |costs| ==> costs[i].total == m.costs[i].total
    ensures CalculateCostSplit(Some(m.(costs := costs))).totalCost == CalculateCostSplit(Some(m)).totalCost
    ensures CalculateCostSplit(Some(m.(costs := costs))).userShare == CalculateCostSplit(Some(m)).userShare
  {
    SumIgnoresItems(costs, m.costs);
  }

  /** A new cost raises the total by its own total, and everyone's share by an equal part of it. */
  lemma NewCostRaisesShare(m: Meetup, c: Cost)
    ensures var before := CalculateCostSplit(Some(m));
      var after := CalculateCostSplit(Some(m.(costs := m.costs + [c])));
      && after.totalCost == before.totalCost + c.total
      && after.userShare == before.userShare + c.total / HeadCount(m.participants) as real
  {
    var m' := m.(costs := m.costs + [c]);
    assert m'.participants == m.participants;
    SplitShare(m);
    SplitShare(m');
    SumTotalsSnoc(m.costs, c);
    QuotientOfSum(SumTotals(m.costs), c.total, HeadCount(m.participants) as real);
  }

  /** The share is the total divided by the head count. */
  lemma SplitShare(m: Meetup)
    ensures CalculateCostSplit(Some(m)).userShare == SumTotals(m.costs) / HeadCount(m.participants) as real
  {
  }

  lemma QuotientOfSum(y: real, z: real, n: real)
    requires n > 0.0
    ensures (y + z) / n == y / n + z / n
  {
  }

  // ---------------------------------------------------------------------------
  // Cost draft

  /** The draft row `addCostItem` appends and the form starts with. */
  const BlankCostItem := CostItem("", 0.0, [])

  /** An item `submitCost` keeps: a name that is not blank and a positive amount. */
  predicate IsValidCostItem(item: CostItem) {
    !IsBlank(item.name) && item.amount > 0.0
  }

  /** `newCost.items.filter(...)`. */
  function ValidItems(items: seq<CostItem>): (r: seq<CostItem>)
    ensures |r| <= |items|
    ensures forall x :: x in r <==> x in items && IsValidCostItem(x)
  {
    if items == [] then []
    else ValidItems(items[..|items| - 1]) + (if IsValidCostItem(items[|items| - 1]) then [items[|items| - 1]] else [])
  }

  /** The filter keeps the valid items in their order and drops nothing valid. */
  lemma {:induction false} ValidItemsAllValid(items: seq<CostItem>)
    requires forall i :: 0 <= i < |items| ==> IsValidCostItem(items[i])
    ensures ValidItems(items) == items
  {
    if items != [] {
      var init, last := items[..|items| - 1], items[|items| - 1];
      assert forall i :: 0 <= i < |init| ==> IsValidCostItem(init[i]) by {
        forall i | 0 <= i < |init| ensures IsValidCostItem(init[i]) {
          assert init[i] == items[i];
        }
      }
      ValidItemsAllValid(init);
      assert IsValidCostItem(last);
      assert ValidItems(items) == ValidItems(init) + [last];
      Seqs.InitLast(items);
    }
  }

  /** Filtering twice is filtering once. */
  lemma {:induction false} ValidItemsIdempotent(items: seq<CostItem>)
    ensures ValidItems(ValidItems(items)) == ValidItems(items)
  {
    var r := ValidItems(items);
    forall i | 0 <= i < |r| ensures IsValidCostItem(r[i]) {
      assert r[i] in r;
    }
    ValidItemsAllValid(r);
  }

  /** One field of a draft item, as `updateCostItem(index, field, value)` sets it. */
  datatype CostEdit = SetName(name: string) | SetAmount(amount: real) | SetSharedWith(sharedWith: seq<string>)

  function ApplyEdit(item: CostItem, edit: CostEdit): (r: CostItem)
    ensures edit.SetName? ==> r == item.(name := edit.name)
    ensures edit.SetAmount? ==> r == item.(amount := edit.amount)
    ensures edit.SetSharedWith? ==> r == item.(sharedWith := edit.sharedWith)
  {
    match edit
    case SetName(n) => item.(name := n)
    case SetAmount(a) => item.(amount := a)
    case SetSharedWith(s) => item.(sharedWith := s)
  }

  /** The cost request body. */
  datatype CostRequest = CostRequest(participantId: string, participantUsername: string, items: seq<CostItem>)

  // ---------------------------------------------------------------------------
  // Fetched data

  /**
   * The fetched JSON as far as `fetchMeetupDetails` reads it: `None` for a
   * missing or falsy value, and for a collection that is not an array.
   */
  datatype RawMeetup = RawMeetup(
    id: string,
    title: Option<string>,
    description: Option<string>,
    location: Option<string>,
    date: int,
    time: Option<string>,
    hostId: Option<string>,
    hostUsername: Option<string>,
    code: Option<string>,
    hasAlcohol: Option<bool>,
    shoppingList: Option<seq<ShoppingItem>>,
    participants: Option<seq<Participant>>,
    costs: Option<seq<Cost>>,
    createdAt: int,
    possibleDates: Option<seq<MeetupDate>>,
    dateAvailabilities: Option<seq<DateAvailability>>,
    itemSuggestions: Option<seq<ItemSuggestion>>,
    dateFinalized: Option<bool>,
    winningDateVotes: Option<int>,
    winningDateVoters: Option<seq<string>>,
    usesDatePolling: Option<bool>)

  /**
   * The sanitised meetup of `fetchMeetupDetails`. The record it builds has
   * no `endDate` or `endTime`, so both are absent afterwards.
   */
  function Normalize(d: RawMeetup): (m: Meetup)
    ensures m.id == d.id && m.date == d.date && m.createdAt == d.createdAt
    // a field that is present is kept; a missing one takes its default
    ensures d.title.Some? ==> m.title == d.title.value
    ensures d.title.None? ==> m.title == ""
    ensures d.description.Some? ==> m.description == d.description.value
    ensures d.description.None? ==> m.description == ""
    ensures d.location.Some? ==> m.location == d.location.value
    ensures d.location.None? ==> m.location == ""
    ensures d.time.Some? ==> m.time == d.time.value
    ensures d.time.None? ==> m.time == ""
    ensures d.possibleDates.Some? ==> m.possibleDates == d.possibleDates.value
    ensures d.possibleDates.None? ==> m.possibleDates == []
    ensures d.dateAvailabilities.Some? ==> m.dateAvailabilities == d.dateAvailabilities.value
    ensures d.dateAvailabilities.None? ==> m.dateAvailabilities == []
    ensures d.hostId.Some? ==> m.hostId == d.hostId.value
    ensures d.hostId.None? ==> m.hostId == ""
    ensures d.hostUsername.Some? ==> m.hostUsername == d.hostUsername.value
    ensures d.hostUsername.None? ==> m.hostUsername == ""
    ensures d.code.Some? ==> m.code == d.code.value
    ensures d.code.None? ==> m.code == ""
    ensures d.hasAlcohol.Some? ==> m.hasAlcohol == d.hasAlcohol.value
    ensures d.hasAlcohol.None? ==> !m.hasAlcohol
    ensures d.shoppingList.Some? ==> m.shoppingList == d.shoppingList.value
    ensures d.shoppingList.None? ==> m.shoppingList == []
    ensures d.itemSuggestions.Some? ==> m.itemSuggestions == d.itemSuggestions.value
    ensures d.itemSuggestions.None? ==> m.itemSuggestions == []
    ensures d.participants.Some? ==> m.participants == d.participants.value
    ensures d.participants.None? ==> m.participants == []
    ensures d.costs.Some? ==> m.costs == d.costs.value
    ensures d.costs.None? ==> m.costs == []
    ensures d.dateFinalized.Some? ==> m.dateFinalized == d.dateFinalized.value
    ensures d.dateFinalized.None? ==> !m.dateFinalized
    ensures d.winningDateVotes.Some? ==> m.winningDateVotes == d.winningDateVotes.value
    ensures d.winningDateVotes.None? ==> m.winningDateVotes == 0
    ensures d.winningDateVoters.Some? ==> m.winningDateVoters == d.winningDateVoters.value
    ensures d.winningDateVoters.None? ==> m.winningDateVoters == []
    ensures d.usesDatePolling.Some? ==> m.usesDatePolling == d.usesDatePolling.value
    ensures d.usesDatePolling.None? ==> !m.usesDatePolling
    ensures m.endDate.None? && m.endTime.None?
  {
    Meetup(
      id := d.id,
      title := d.title.GetOr(""),
      description := d.description.GetOr(""),
      location := d.location.GetOr(""),
      date := d.date,
      time := d.time.GetOr(""),
      endDate := None,
      endTime := None,
      possibleDates := d.possibleDates.GetOr([]),
      dateAvailabilities := d.dateAvailabilities.GetOr([]),
      hostId := d.hostId.GetOr(""),
      hostUsername := d.hostUsername.GetOr(""),
      code := d.code.GetOr(""),
      hasAlcohol := d.hasAlcohol.GetOr(false),
      shoppingList := d.shoppingList.GetOr([]),
      itemSuggestions := d.itemSuggestions.GetOr([]),
      participants := d.participants.GetOr([]),
      costs := d.costs.GetOr([]),
      createdAt := d.createdAt,
      dateFinalized := d.dateFinalized.GetOr(false),
      winningDateVotes := d.winningDateVotes.GetOr(0),
      winningDateVoters := d.winningDateVoters.GetOr([]),
      usesDatePolling := d.usesDatePolling.GetOr(false))
  }

  /** The raw record of a meetup as the server sends it back. */
  function Raw(m: Meetup): RawMeetup {
    RawMeetup(m.id, Some(m.title), Some(m.description), Some(m.location), m.date, Some(m.time),
              Some(m.hostId), Some(m.hostUsername), Some(m.code), Some(m.hasAlcohol),
              Some(m.shoppingList), Some(m.participants), Some(m.costs), m.createdAt,
              Some(m.possibleDates), Some(m.dateAvailabilities), Some(m.itemSuggestions),
              Some(m.dateFinalized), Some(m.winningDateVotes), Some(m.winningDateVoters),
              Some(m.usesDatePolling))
  }

  /** A complete record survives normalisation except for its end date and end time. */
  lemma NormalizeComplete(m: Meetup)
    ensures Normalize(Raw(m)) == m.(endDate := None, endTime := None)
  {
  }

  /** Normalising a normalised meetup changes nothing. */
  lemma NormalizeIdempotent(d: RawMeetup)
    ensures Normalize(Raw(Normalize(d))) == Normalize(d)
  {
    NormalizeComplete(Normalize(d));
  }

  // ---------------------------------------------------------------------------
  // Component state

  class MeetupDetailsState {
    var meetup: Option<Meetup>
    var costItems: seq<CostItem>
    var showAddCost: bool

    constructor ()
      ensures meetup.None? && costItems == [BlankCostItem] && !showAddCost
    {
      meetup := None;
      costItems := [BlankCostItem];
      showAddCost := false;
    }

    /** A successful fetch stores the normalised meetup; a failed one keeps the old one. */
    method ReceiveMeetup(response: Option<RawMeetup>)
      modifies this
      ensures meetup == if response.Some? then Some(Normalize(response.value)) else old(meetup)
      ensures costItems == old(costItems) && showAddCost == old(showAddCost)
    {
      if response.Some? {
        meetup := Some(Normalize(response.value));
      }
    }

    /** `addCostItem()`: one blank row more. */
    method AddCostItem()
      modifies this
      ensures costItems == old(costItems) + [BlankCostItem]
      ensures meetup == old(meetup) && showAddCost == old(showAddCost)
    {
      costItems := costItems + [BlankCostItem];
    }

    /** `updateCostItem(index, field, value)`: only that field of that row changes. */
    method UpdateCostItem(index: nat, edit: CostEdit)
      requires index < |costItems|
      modifies this
      ensures |costItems| == |old(costItems)|
      ensures costItems[index] == ApplyEdit(old(costItems)[index], edit)
      ensures forall i :: 0 <= i < |costItems| && i != index ==> costItems[i] == old(costItems)[i]
      ensures meetup == old(meetup) && showAddCost == old(showAddCost)
    {
      costItems := costItems[index := ApplyEdit(costItems[index], edit)];
    }

    /**
     * `submitCost()`: no request without a user and a meetup or without a
     * valid row; otherwise a request with the valid rows. `ok` is the
     * outcome of the request; on success the draft is reset and hidden.
     */
    method SubmitCost(user: Option<User>, ok: bool) returns (request: Option<CostRequest>)
      modifies this
      ensures request.None? <==> user.None? || old(meetup).None? || ValidItems(old(costItems)) == []
      ensures request.Some? ==> request.value == CostRequest(user.value.id, user.value.username, ValidItems(old(costItems)))
      ensures costItems == if request.Some? && ok then [BlankCostItem] else old(costItems)
      ensures showAddCost == if request.Some? && ok then false else old(showAddCost)
      ensures meetup == old(meetup)
    {
      if user.None? || meetup.None? {
        return None;
      }
      var valid := ValidItems(costItems);
      if valid == [] {
        return None;
      }
      request := Some(CostRequest(user.value.id, user.value.username, valid));
      if ok {
        showAddCost := false;
        costItems := [BlankCostItem];
      }
    }
  }
}
