/**
 * The "My Meetups" tab (components/my-meetups-tab.tsx): a list of meetups is
 * split by lifecycle status into upcoming, in-progress and past buckets, and
 * each bucket is sorted by its own key.
 */
module MyMeetupsTab {

  import opened Types
  import opened MeetupUtils
  import opened Sorting

  /** The status function at minute `now`. */
  function StatusAt(now: int): Meetup -> Status {
    m => GetMeetupStatus(m, now)
  }

  /** The first `n` meetups whose status under `status` is `st`, in their input order. */
  function Bucket(ms: seq<Meetup>, status: Meetup -> Status, n: nat, st: Status): seq<Meetup>
    requires n <= |ms|
  {
    if n == 0 then []
    else Bucket(ms, status, n - 1, st) + (if status(ms[n - 1]) == st then [ms[n - 1]] else [])
  }

  /** The meetups whose status at `now` is `st`, in their input order. */
  function WithStatus(ms: seq<Meetup>, now: int, st: Status): seq<Meetup> {
    Bucket(ms, StatusAt(now), |ms|, st)
  }

  /** One more meetup extends exactly the bucket of its status. */
  lemma BucketStep(ms: seq<Meetup>, status: Meetup -> Status, n: nat)
    requires n < |ms|
    ensures Bucket(ms, status, n + 1, status(ms[n])) == Bucket(ms, status, n, status(ms[n])) + [ms[n]]
    ensures forall st :: st != status(ms[n]) ==> Bucket(ms, status, n + 1, st) == Bucket(ms, status, n, st)
  {
  }

  lemma {:induction false} BucketStatus(ms: seq<Meetup>, status: Meetup -> Status, n: nat, st: Status)
    requires n <= |ms|
    ensures forall x :: x in Bucket(ms, status, n, st) ==> x in ms[..n] && status(x) == st
  {
    if n > 0 {
      BucketStatus(ms, status, n - 1, st);
      assert ms[..n] == ms[..n - 1] + [ms[n - 1]];
    }
  }

  /** Every meetup lands in exactly one bucket. */
  lemma {:induction false} BucketsPartition(ms: seq<Meetup>, status: Meetup -> Status, n: nat)
    requires n <= |ms|
    ensures multiset(Bucket(ms, status, n, Upcoming)) + multiset(Bucket(ms, status, n, InProgress))
            + multiset(Bucket(ms, status, n, Past)) == multiset(ms[..n])
  {
    if n > 0 {
      var x := ms[n - 1];
      assert multiset(ms[..n]) == multiset(ms[..n - 1]) + multiset{x} by {
        assert ms[..n] == ms[..n - 1] + [x];
      }
      BucketsPartition(ms, status, n - 1);
      BucketMultisetStep(ms, status, n, Upcoming);
      BucketMultisetStep(ms, status, n, InProgress);
      BucketMultisetStep(ms, status, n, Past);
    }
  }

  /** The last of the first `n` meetups adds itself to the multiset of its own bucket only. */
  lemma BucketMultisetStep(ms: seq<Meetup>, status: Meetup -> Status, n: nat, st: Status)
    requires 0 < n <= |ms|
    ensures multiset(Bucket(ms, status, n, st)) ==
      multiset(Bucket(ms, status, n - 1, st)) + (if status(ms[n - 1]) == st then multiset{ms[n - 1]} else multiset{})
  {
  }

  /** A meetup is in the bucket of its own status. */
  lemma {:induction false} InOwnBucket(ms: seq<Meetup>, status: Meetup -> Status, n: nat, m: Meetup)
    requires n <= |ms| && m in ms[..n]
    ensures m in Bucket(ms, status, n, status(m))
  {
    assert ms[..n] == ms[..n - 1] + [ms[n - 1]];
    if m != ms[n - 1] {
      InOwnBucket(ms, status, n - 1, m);
    }
  }

  /** A sorted bucket is a permutation of the bucket, so it holds only meetups of its status. */
  lemma SortedBucket(ms: seq<Meetup>, now: int, st: Status, key: Meetup -> real)
    ensures var r := SortBy(WithStatus(ms, now, st), key);
      forall i :: 0 <= i < |r| ==> GetMeetupStatus(r[i], now) == st
  {
    var b := WithStatus(ms, now, st);
    var r := SortBy(b, key);
    BucketStatus(ms, StatusAt(now), |ms|, st);
    forall i | 0 <= i < |r| ensures GetMeetupStatus(r[i], now) == st {
      assert r[i] in multiset(b);
      assert r[i] in b;
      assert StatusAt(now)(r[i]) == st;
    }
  }

  /** Sort key of the upcoming bucket: the start date, ascending. */
  function StartKey(m: Meetup): real {
    m.date as real
  }

  /** Sort key of the in-progress bucket: the end date, or the date when there is none. */
  function EndKey(m: Meetup): real {
    (if m.endDate.Some? then m.endDate.value else m.date) as real
  }

  /** Sort key of the past bucket: the start date, descending. */
  function RecentFirstKey(m: Meetup): real {
    -(m.date as real)
  }

  /** The three sorted buckets together hold exactly the input meetups. */
  lemma CategorizedPartition(ms: seq<Meetup>, now: int)
    ensures multiset(SortBy(WithStatus(ms, now, Upcoming), StartKey))
            + multiset(SortBy(WithStatus(ms, now, InProgress), EndKey))
            + multiset(SortBy(WithStatus(ms, now, Past), RecentFirstKey)) == multiset(ms)
  {
    assert ms[..|ms|] == ms;
    BucketsPartition(ms, StatusAt(now), |ms|);
  }

  /** Upcoming meetups soonest first, in-progress ones ending soonest first, past ones most recent first. */
  lemma CategorizedOrder(ms: seq<Meetup>, now: int)
    ensures var u := SortBy(WithStatus(ms, now, Upcoming), StartKey);
      forall i, j :: 0 <= i < j < |u| ==> u[i].date <= u[j].date
    ensures var p := SortBy(WithStatus(ms, now, InProgress), EndKey);
      forall i, j :: 0 <= i < j < |p| ==> EndKey(p[i]) <= EndKey(p[j])
    ensures var q := SortBy(WithStatus(ms, now, Past), RecentFirstKey);
      forall i, j :: 0 <= i < j < |q| ==> q[i].date >= q[j].date
  {
    StartKeyOrder(WithStatus(ms, now, Upcoming));
    RecentFirstKeyOrder(WithStatus(ms, now, Past));
  }

  /** Sorting by `StartKey` orders by the date, ascending. */
  lemma StartKeyOrder(b: seq<Meetup>)
    ensures var u := SortBy(b, StartKey);
      forall i, j :: 0 <= i < j < |u| ==> u[i].date <= u[j].date
  {
    var u := SortBy(b, StartKey);
    assert forall i, j :: 0 <= i < j < |u| ==> StartKey(u[i]) <= StartKey(u[j]);
  }

  /** Sorting by `RecentFirstKey` orders by the date, descending. */
  lemma RecentFirstKeyOrder(b: seq<Meetup>)
    ensures var q := SortBy(b, RecentFirstKey);
      forall i, j :: 0 <= i < j < |q| ==> q[i].date >= q[j].date
  {
    var q := SortBy(b, RecentFirstKey);
    assert forall i, j :: 0 <= i < j < |q| ==> RecentFirstKey(q[i]) <= RecentFirstKey(q[j]);
  }

  /**
   * The `forEach` of `categorizeMeetups`: each meetup is pushed onto the list
   * of its status, in input order. The status function (`getMeetupStatus` at
   * the current minute) is a parameter.
   */
  method SplitByStatus(meetups: seq<Meetup>, status: Meetup -> Status)
    returns (upcoming: seq<Meetup>, inProgress: seq<Meetup>, past: seq<Meetup>)
    ensures upcoming == Bucket(meetups, status, |meetups|, Upcoming)
    ensures inProgress == Bucket(meetups, status, |meetups|, InProgress)
    ensures past == Bucket(meetups, status, |meetups|, Past)
  {
    upcoming, inProgress, past := [], [], [];
    for i := 0 to |meetups|
      invariant upcoming == Bucket(meetups, status, i, Upcoming)
      invariant inProgress == Bucket(meetups, status, i, InProgress)
      invariant past == Bucket(meetups, status, i, Past)
    {
      var st := status(meetups[i]);
      BucketStep(meetups, status, i);
      if st == Upcoming {
        upcoming := upcoming + [meetups[i]];
      } else if st == InProgress {
        inProgress := inProgress + [meetups[i]];
      } else {
        past := past + [meetups[i]];
      }
    }
  }

  /** `categorizeMeetups(meetups)` with the clock at minute `now`. */
  method CategorizeMeetups(meetups: seq<Meetup>, now: int)
    returns (upcoming: seq<Meetup>, inProgress: seq<Meetup>, past: seq<Meetup>)
    ensures upcoming == SortBy(WithStatus(meetups, now, Upcoming), StartKey)
    ensures inProgress == SortBy(WithStatus(meetups, now, InProgress), EndKey)
    ensures past == SortBy(WithStatus(meetups, now, Past), RecentFirstKey)
  {
    upcoming, inProgress, past := SplitByStatus(meetups, StatusAt(now));
    upcoming := SortBy(upcoming, StartKey);
    inProgress := SortBy(inProgress, EndKey);
    past := SortBy(past, RecentFirstKey);
  }
}
