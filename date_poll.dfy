/**
 * The date poll (components/date-poll.tsx): per candidate date it counts the
 * availability records, derives a percentage, orders the candidates and
 * marks the leaders; it also shows the number of distinct voters and, to
 * the host, the button that finalizes the poll.
 */
module DatePoll {

  import opened Wrappers
  import opened Types
  import opened Sorting
  import Seqs

  /** The records that answer for candidate `dateId`, in record order. */
  function ForDate(avs: seq<DateAvailability>, dateId: string): (r: seq<DateAvailability>)
    ensures |r| <= |avs|
    ensures forall a :: a in r <==> a in avs && a.dateId == dateId
  {
    if avs == [] then []
    else (if avs[0].dateId == dateId then [avs[0]] else []) + ForDate(avs[1..], dateId)
  }

  /** The records whose `available` flag is `yes`, in record order. */
  function Answered(avs: seq<DateAvailability>, yes: bool): (r: seq<DateAvailability>)
    ensures |r| <= |avs|
    ensures forall a :: a in r <==> a in avs && a.available == yes
  {
    if avs == [] then []
    else (if avs[0].available == yes then [avs[0]] else []) + Answered(avs[1..], yes)
  }

  function Usernames(avs: seq<DateAvailability>): (r: seq<string>)
    ensures |r| == |avs|
    ensures forall i :: 0 <= i < |avs| ==> r[i] == avs[i].username
  {
    seq(|avs|, i requires 0 <= i < |avs| => avs[i].username)
  }

  /** Every record answers either yes or no. */
  lemma {:induction false} AnsweredSplit(avs: seq<DateAvailability>)
    ensures |Answered(avs, true)| + |Answered(avs, false)| == |avs|
  {
    if avs != [] {
      AnsweredSplit(avs[1..]);
    }
  }

  /** Filtering for a date twice is filtering once. */
  lemma {:induction false} ForDateIdempotent(avs: seq<DateAvailability>, dateId: string)
    ensures ForDate(ForDate(avs, dateId), dateId) == ForDate(avs, dateId)
  {
    if avs != [] {
      ForDateIdempotent(avs[1..], dateId);
      var head := if avs[0].dateId == dateId then [avs[0]] else [];
      assert ForDate(avs, dateId) == head + ForDate(avs[1..], dateId);
      ForDateAppend(head, ForDate(avs[1..], dateId), dateId);
    }
  }

  lemma {:induction false} ForDateAppend(xs: seq<DateAvailability>, ys: seq<DateAvailability>, dateId: string)
    ensures ForDate(xs + ys, dateId) == ForDate(xs, dateId) + ForDate(ys, dateId)
  {
    if xs == [] {
      assert xs + ys == ys;
    } else {
      assert (xs + ys)[0] == xs[0];
      assert (xs + ys)[1..] == xs[1..] + ys;
      ForDateAppend(xs[1..], ys, dateId);
    }
  }

  lemma {:induction false} ForDateNone(avs: seq<DateAvailability>, dateId: string)
    requires forall a :: a in avs ==> a.dateId != dateId
    ensures ForDate(avs, dateId) == []
  {
    if avs != [] {
      assert avs[0] in avs;
      ForDateNone(avs[1..], dateId);
    }
  }

  datatype DateStats = DateStats(
    available: nat,
    unavailable: nat,
    total: nat,
    percentage: real,
    availableUsers: seq<string>,
    unavailableUsers: seq<string>)

  /** `available.length / total * 100`, or 0 when nobody answered. */
  function Percent(yes: nat, total: nat): (p: real)
    requires yes <= total
    ensures 0.0 <= p <= 100.0
    ensures total == 0 ==> p == 0.0
    ensures total > 0 ==> p * (total as real) == (yes as real) * 100.0
    ensures p > 0.0 <==> yes > 0
  {
    if total > 0 then
      var q := yes as real / total as real;
      RatioBounds(yes as real, total as real);
      q * 100.0
    else 0.0
  }

  lemma RatioBounds(a: real, b: real)
    requires 0.0 <= a <= b && b > 0.0
    ensures (a / b) * b == a
    ensures 0.0 <= a / b <= 1.0
    ensures a / b > 0.0 <==> a > 0.0
  {
    var q := a / b;
    if q > 1.0 {
      ScaleStrict(q, 1.0, b);
    }
  }

  lemma ScaleStrict(x: real, y: real, b: real)
    requires x > y && b > 0.0
    ensures x * b > y * b
  {
  }

  /** `getDateStats(dateId)`: the tally of the records for one candidate date. */
  function GetDateStats(avs: seq<DateAvailability>, dateId: string): (s: DateStats)
    ensures s.total == |ForDate(avs, dateId)|
    ensures s.available + s.unavailable == s.total
    ensures s.percentage == Percent(s.available, s.total)
    ensures |s.availableUsers| == s.available && |s.unavailableUsers| == s.unavailable
  {
    var forDate := ForDate(avs, dateId);
    var yes := Answered(forDate, true);
    var no := Answered(forDate, false);
    AnsweredSplit(forDate);
    DateStats(|yes|, |no|, |forDate|, Percent(|yes|, |forDate|), Usernames(yes), Usernames(no))
  }

  /** A name is listed iff some record carries it. */
  lemma UsernamesHas(rs: seq<DateAvailability>, u: string)
    ensures u in Usernames(rs) <==> exists a :: a in rs && a.username == u
  {
    if u in Usernames(rs) {
      var i :| 0 <= i < |rs| && Usernames(rs)[i] == u;
      assert rs[i] in rs;
    }
    if exists a :: a in rs && a.username == u {
      var a :| a in rs && a.username == u;
      var i :| 0 <= i < |rs| && rs[i] == a;
      assert Usernames(rs)[i] == u;
    }
  }

  /** The names of one answer for one date are the authors of such records. */
  lemma AnsweredUsers(avs: seq<DateAvailability>, dateId: string, yes: bool, u: string)
    ensures u in Usernames(Answered(ForDate(avs, dateId), yes)) <==>
      exists a :: a in avs && a.dateId == dateId && a.available == yes && a.username == u
  {
    UsernamesHas(Answered(ForDate(avs, dateId), yes), u);
  }

  /**
   * The names listed as available are exactly the authors of a "yes"
   * record for that date, in record order; likewise for "no".
   */
  lemma StatsUsers(avs: seq<DateAvailability>, dateId: string)
    ensures var s := GetDateStats(avs, dateId);
      && s.availableUsers == Usernames(Answered(ForDate(avs, dateId), true))
      && s.unavailableUsers == Usernames(Answered(ForDate(avs, dateId), false))
      && (forall u :: u in s.availableUsers <==>
            exists a :: a in avs && a.dateId == dateId && a.available && a.username == u)
      && (forall u :: u in s.unavailableUsers <==>
            exists a :: a in avs && a.dateId == dateId && !a.available && a.username == u)
  {
    var s := GetDateStats(avs, dateId);
    forall u
      ensures u in s.availableUsers <==> exists a :: a in avs && a.dateId == dateId && a.available && a.username == u
      ensures u in s.unavailableUsers <==> exists a :: a in avs && a.dateId == dateId && !a.available && a.username == u
    {
      AnsweredUsers(avs, dateId, true, u);
      AnsweredUsers(avs, dateId, false, u);
    }
  }

  /** Records for other dates never change a date's stats. */
  lemma OnlyOwnRecordsCount(avs: seq<DateAvailability>, others: seq<DateAvailability>, dateId: string)
    requires forall a :: a in others ==> a.dateId != dateId
    ensures GetDateStats(avs + others, dateId) == GetDateStats(avs, dateId)
    ensures GetDateStats(others + avs, dateId) == GetDateStats(avs, dateId)
    ensures GetDateStats(ForDate(avs, dateId), dateId) == GetDateStats(avs, dateId)
  {
    ForDateAppend(avs, others, dateId);
    ForDateAppend(others, avs, dateId);
    ForDateNone(others, dateId);
    assert ForDate(avs + others, dateId) == ForDate(avs, dateId);
    assert ForDate(others + avs, dateId) == ForDate(avs, dateId);
    ForDateIdempotent(avs, dateId);
  }

  /** A candidate's percentage. */
  function Percentage(avs: seq<DateAvailability>, d: MeetupDate): (r: real)
    ensures 0.0 <= r <= 100.0
  {
    GetDateStats(avs, d.id).percentage
  }

  /** Results order: the comparator `statsB.percentage - statsA.percentage`. */
  function ByPercentageDesc(avs: seq<DateAvailability>): MeetupDate -> real {
    d => -Percentage(avs, d)
  }

  /** Plain order: the candidate's date, ascending. */
  function ByDate(d: MeetupDate): real {
    d.date as real
  }

  /** `sortedDates`: a sorted copy; the stable `Array.prototype.sort` keeps ties in input order. */
  function SortedDates(dates: seq<MeetupDate>, avs: seq<DateAvailability>, showResults: bool): (r: seq<MeetupDate>)
    ensures multiset(r) == multiset(dates) && |r| == |dates|
    ensures showResults ==> forall i, j :: 0 <= i < j < |r| ==> Percentage(avs, r[i]) >= Percentage(avs, r[j])
    ensures !showResults ==> forall i, j :: 0 <= i < j < |r| ==> r[i].date <= r[j].date
  {
    if showResults then
      var r := SortBy(dates, ByPercentageDesc(avs));
      assert forall i, j :: 0 <= i < j < |r| ==> ByPercentageDesc(avs)(r[i]) <= ByPercentageDesc(avs)(r[j]);
      r
    else
      var r := SortBy(dates, ByDate);
      assert forall i, j :: 0 <= i < j < |r| ==> ByDate(r[i]) <= ByDate(r[j]);
      r
  }

  /** Candidates tied on the sort key keep their input order. */
  lemma SortedDatesStable(dates: seq<MeetupDate>, avs: seq<DateAvailability>, showResults: bool, v: real)
    ensures showResults ==>
      WithKey(SortedDates(dates, avs, true), ByPercentageDesc(avs), v) == WithKey(dates, ByPercentageDesc(avs), v)
    ensures !showResults ==>
      WithKey(SortedDates(dates, avs, false), ByDate, v) == WithKey(dates, ByDate, v)
  {
    SortByStable(dates, ByPercentageDesc(avs), v);
    SortByStable(dates, ByDate, v);
  }

  /** `Math.max(...)` over the candidates' percentages. */
  function MaxPercentage(dates: seq<MeetupDate>, avs: seq<DateAvailability>): (m: real)
    requires dates != []
    ensures forall d :: d in dates ==> Percentage(avs, d) <= m
    ensures exists d :: d in dates && Percentage(avs, d) == m
  {
    if |dates| == 1 then Percentage(avs, dates[0])
    else
      var rest := MaxPercentage(dates[1..], avs);
      assert forall d :: d in dates ==> d == dates[0] || d in dates[1..];
      if Percentage(avs, dates[0]) >= rest then Percentage(avs, dates[0]) else rest
  }

  /** `isWinner` for candidate `d` among the sorted candidates. */
  predicate IsWinner(sorted: seq<MeetupDate>, avs: seq<DateAvailability>, showResults: bool, d: MeetupDate)
    requires sorted != []
  {
    showResults && Percentage(avs, d) > 0.0 && Percentage(avs, d) >= MaxPercentage(sorted, avs)
  }

  /**
   * A candidate wins exactly when results are shown, it has a positive
   * percentage and no candidate has a higher one.
   */
  lemma WinnerIff(dates: seq<MeetupDate>, avs: seq<DateAvailability>, showResults: bool, d: MeetupDate)
    requires dates != []
    ensures var sorted := SortedDates(dates, avs, showResults);
      IsWinner(sorted, avs, showResults, d) <==>
        showResults && Percentage(avs, d) > 0.0 && forall e :: e in dates ==> Percentage(avs, e) <= Percentage(avs, d)
  {
    var sorted := SortedDates(dates, avs, showResults);
    AtLeastMaxIff(sorted, dates, avs, Percentage(avs, d));
  }

  /** A value bounds the maximum of a rearrangement exactly when it bounds every candidate. */
  lemma AtLeastMaxIff(sorted: seq<MeetupDate>, dates: seq<MeetupDate>, avs: seq<DateAvailability>, x: real)
    requires sorted != [] && multiset(sorted) == multiset(dates)
    ensures x >= MaxPercentage(sorted, avs) <==> forall e :: e in dates ==> Percentage(avs, e) <= x
  {
    Seqs.SameMembers(sorted, dates);
    var m := MaxPercentage(sorted, avs);
    var w :| w in sorted && Percentage(avs, w) == m;
    assert w in dates;
  }

  /** Every candidate tied at the top is a winner. */
  lemma TiesAllWin(dates: seq<MeetupDate>, avs: seq<DateAvailability>, showResults: bool, d: MeetupDate, e: MeetupDate)
    requires dates != [] && e in dates
    requires Percentage(avs, e) == Percentage(avs, d)
    requires IsWinner(SortedDates(dates, avs, showResults), avs, showResults, d)
    ensures IsWinner(SortedDates(dates, avs, showResults), avs, showResults, e)
  {
    WinnerIff(dates, avs, showResults, d);
    WinnerIff(dates, avs, showResults, e);
  }

  /** With no "yes" for any candidate there is no winner. */
  lemma NoVotesNoWinner(dates: seq<MeetupDate>, avs: seq<DateAvailability>, showResults: bool, d: MeetupDate)
    requires dates != []
    requires forall e :: e in dates ==> Percentage(avs, e) == 0.0
    requires d in dates
    ensures !IsWinner(SortedDates(dates, avs, showResults), avs, showResults, d)
  {
    WinnerIff(dates, avs, showResults, d);
  }

  /** When results are shown and some candidate has a "yes", some candidate wins. */
  lemma SomeoneWins(dates: seq<MeetupDate>, avs: seq<DateAvailability>, e: MeetupDate)
    requires e in dates && Percentage(avs, e) > 0.0
    ensures exists d :: d in dates && IsWinner(SortedDates(dates, avs, true), avs, true, d)
  {
    var sorted := SortedDates(dates, avs, true);
    MaxIsMember(sorted, dates, avs);
  }

  /** The maximum of a rearrangement is reached by a candidate and bounds every candidate. */
  lemma MaxIsMember(sorted: seq<MeetupDate>, dates: seq<MeetupDate>, avs: seq<DateAvailability>)
    requires sorted != [] && multiset(sorted) == multiset(dates)
    ensures exists w :: w in dates && Percentage(avs, w) == MaxPercentage(sorted, avs)
    ensures forall e :: e in dates ==> Percentage(avs, e) <= MaxPercentage(sorted, avs)
  {
    Seqs.SameMembers(sorted, dates);
    var m := MaxPercentage(sorted, avs);
    var w :| w in sorted && Percentage(avs, w) == m;
    assert w in dates;
  }

  /** The "participants voted" figure: distinct participant ids among the records. */
  function Voters(avs: seq<DateAvailability>): (r: set<string>)
    ensures forall i :: 0 <= i < |avs| ==> avs[i].participantId in r
  {
    set a | a in avs :: a.participantId
  }

  /** There are never more voters than records, and some voter whenever there is a record. */
  lemma {:induction false} VotersBounds(avs: seq<DateAvailability>)
    ensures |Voters(avs)| <= |avs|
    ensures avs != [] ==> |Voters(avs)| >= 1
  {
    if avs != [] {
      VotersBounds(avs[1..]);
      assert Voters(avs) == {avs[0].participantId} + Voters(avs[1..]) by {
        forall p ensures p in Voters(avs) <==> p in {avs[0].participantId} + Voters(avs[1..]) {
          if p in Voters(avs) {
            var a :| a in avs && a.participantId == p;
            if a != avs[0] {
              assert a in avs[1..];
            }
          }
          if p in Voters(avs[1..]) {
            var a :| a in avs[1..] && a.participantId == p;
            assert a in avs;
          }
        }
      }
      assert avs[0].participantId in Voters(avs);
    }
  }

  /** One more record adds its participant to the voters. */
  lemma VotersAppend(avs: seq<DateAvailability>, a: DateAvailability)
    ensures Voters(avs + [a]) == Voters(avs) + {a.participantId}
  {
  }

  /** A participant who has already answered does not raise the count of voters. */
  lemma RepeatVoterNotCounted(avs: seq<DateAvailability>, a: DateAvailability, b: DateAvailability)
    requires b in avs && b.participantId == a.participantId
    ensures |Voters(avs + [a])| == |Voters(avs)|
  {
    VotersAppend(avs, a);
    assert a.participantId in Voters(avs);
    assert Voters(avs) + {a.participantId} == Voters(avs);
  }

  /** A participant's first record raises the count of voters by one. */
  lemma NewVoterCounted(avs: seq<DateAvailability>, a: DateAvailability)
    requires forall b :: b in avs ==> b.participantId != a.participantId
    ensures |Voters(avs + [a])| == |Voters(avs)| + 1
  {
    VotersAppend(avs, a);
    assert a.participantId !in Voters(avs);
  }

  /** The inputs of `DatePoll`. */
  datatype PollProps = PollProps(
    possibleDates: seq<MeetupDate>,
    dateAvailabilities: seq<DateAvailability>,
    isHost: bool,
    showResults: bool,
    dateFinalized: bool)

  datatype Summary = Voted(participants: nat) | NoVotesYet

  datatype Row = Row(date: MeetupDate, stats: DateStats, isWinner: bool)

  /** What the poll shows: the rows in display order, the summary line and the finalize button. */
  datatype PollView = PollView(rows: seq<Row>, summary: Option<Summary>, finalizeButton: bool)

  /** The finalize button: host, results view, not yet finalized, at least one vote. */
  predicate ShowsFinalize(p: PollProps) {
    p.isHost && p.showResults && !p.dateFinalized && |p.dateAvailabilities| > 0
  }

  /** The rendered poll; nothing at all without candidates. */
  function Render(p: PollProps): (v: Option<PollView>)
    ensures v.None? <==> p.possibleDates == []
    ensures v.Some? ==> |v.value.rows| == |p.possibleDates|
    ensures v.Some? ==> forall i :: 0 <= i < |v.value.rows| ==> v.value.rows[i].date in p.possibleDates
    ensures v.Some? ==> (v.value.summary.Some? <==> p.showResults)
    ensures v.Some? ==> (v.value.finalizeButton <==> ShowsFinalize(p))
  {
    if p.possibleDates == [] then None
    else
      var avs := p.dateAvailabilities;
      var sorted := SortedDates(p.possibleDates, avs, p.showResults);
      var rows := seq(|sorted|, i requires 0 <= i < |sorted| =>
        Row(sorted[i], GetDateStats(avs, sorted[i].id), IsWinner(sorted, avs, p.showResults, sorted[i])));
      assert forall i :: 0 <= i < |rows| ==> rows[i].date in p.possibleDates by {
        forall i | 0 <= i < |rows| ensures rows[i].date in p.possibleDates {
          assert sorted[i] in multiset(sorted);
        }
      }
      var summary := if !p.showResults then None
                     else if |avs| > 0 then Some(Voted(|Voters(avs)|))
                     else Some(NoVotesYet);
      Some(PollView(rows, summary, ShowsFinalize(p)))
  }

  /** The rows are the candidates in poll order, each with its own stats and the winner mark. */
  lemma RenderRows(p: PollProps)
    requires p.possibleDates != []
    ensures var v := Render(p).value;
      var sorted := SortedDates(p.possibleDates, p.dateAvailabilities, p.showResults);
      forall i :: 0 <= i < |v.rows| ==>
        && v.rows[i].date == sorted[i]
        && v.rows[i].stats == GetDateStats(p.dateAvailabilities, sorted[i].id)
        && (v.rows[i].isWinner <==> IsWinner(sorted, p.dateAvailabilities, p.showResults, sorted[i]))
  {
  }

  /** With results shown, the summary counts distinct voters, or says nobody voted. */
  lemma RenderSummary(p: PollProps)
    requires p.possibleDates != [] && p.showResults
    ensures var s := Render(p).value.summary.value;
      && (|p.dateAvailabilities| == 0 <==> s == NoVotesYet)
      && (s.Voted? ==> s.participants == |Voters(p.dateAvailabilities)|)
      && (s.Voted? ==> 1 <= s.participants <= |p.dateAvailabilities|)
  {
    VotersBounds(p.dateAvailabilities);
  }
}
