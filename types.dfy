/**
 * The entities of the meetup planner (lib/types.ts).  Instants and calendar
 * dates are integer minutes of local wall-clock time; amounts and money are
 * reals.  Optional fields the source reads with `?.` or `||` are `Option`s.
 */
module Types {

  import opened Wrappers

  datatype Category = Food | Drink | Alcohol | Other

  datatype ShoppingItem = ShoppingItem(
    id: string,
    name: string,
    baseAmount: real,
    unit: string,
    category: Category,
    perPerson: bool)

  datatype Participant = Participant(
    id: string,
    participantId: string,
    username: string,
    isVegetarian: bool,
    isVegan: bool,
    drinksAlcohol: bool,
    stayDuration: real,
    joinTime: string,
    suggestions: string,
    bringingItems: seq<string>,
    joinedAt: int)

  /** A participant's answers, as the join and the edit forms hold and send them. */
  datatype ParticipantData = ParticipantData(
    isVegetarian: bool,
    isVegan: bool,
    drinksAlcohol: bool,
    stayDuration: real,
    joinTime: string,
    suggestions: string,
    bringingItems: seq<string>)

  datatype CostItem = CostItem(name: string, amount: real, sharedWith: seq<string>)

  datatype Cost = Cost(
    id: string,
    participantId: string,
    participantUsername: string,
    items: seq<CostItem>,
    total: real,
    addedAt: int)

  /** A candidate date of a date poll. */
  datatype MeetupDate = MeetupDate(
    id: string,
    date: int,
    time: string,
    endTime: Option<string>,
    description: Option<string>)

  /** One participant's answer for one candidate date. */
  datatype DateAvailability = DateAvailability(
    participantId: string,
    username: string,
    dateId: string,
    available: bool)

  datatype ItemSuggestion = ItemSuggestion(
    id: string,
    participantId: string,
    participantUsername: string,
    name: string,
    baseAmount: real,
    unit: string,
    category: Category,
    perPerson: bool,
    reason: Option<string>,
    suggestedAt: int)

  datatype Meetup = Meetup(
    id: string,
    title: string,
    description: string,
    location: string,
    date: int,
    time: string,
    endDate: Option<int>,
    endTime: Option<string>,
    possibleDates: seq<MeetupDate>,
    dateAvailabilities: seq<DateAvailability>,
    hostId: string,
    hostUsername: string,
    code: string,
    hasAlcohol: bool,
    shoppingList: seq<ShoppingItem>,
    itemSuggestions: seq<ItemSuggestion>,
    participants: seq<Participant>,
    costs: seq<Cost>,
    createdAt: int,
    dateFinalized: bool,
    winningDateVotes: int,
    winningDateVoters: seq<string>,
    usesDatePolling: bool)

  datatype User = User(id: string, username: string, fullName: string, createdAt: int)

  /**
   * The head count shown on a meetup: the participants plus the host, who has
   * no participant record.
   */
  function HeadCount(participants: seq<Participant>): (n: nat)
    ensures n >= 1 && n - 1 == |participants|
  {
    |participants| + 1
  }
}
