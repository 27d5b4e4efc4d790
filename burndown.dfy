/** The burndown chart of `searchAndPlotBugs`: bugs returned by a Bugzilla
    search are grouped into per-day buckets of opened and closed bugs, the
    buckets are walked in date order keeping running open/closed counts and
    point totals, the points on or after the chart start date are emitted,
    and the series is padded to begin at the chart start date and to end
    today. Days are day numbers; today is an input, and the chart start
    date comes from the query's `since` entry. */
module Burndown {
  import opened Js
  import BurndownQuery

  type Day = int

  /** The fields of a Bugzilla bug that the chart reads (`bug.open`,
      the days of `bug.reportedAt` and `bug.lastModifiedAt`, `bug.points`). */
  datatype Bug = Bug(id: int, open: bool, reportedAt: Day, lastModifiedAt: Day, points: Option<int>)

  /** One bucket of `changes`: the bugs reported on `date` and the non-open
      bugs last modified on `date`, each in search-result order. */
  datatype Change = Change(date: Day, bugsOpened: seq<Bug>, bugsClosed: seq<Bug>)

  function Reported(b: Bug): Day { b.reportedAt }
  function LastModified(b: Bug): Day { b.lastModifiedAt }
  predicate IsClosed(b: Bug) { !b.open }
  predicate IsOpen(b: Bug) { b.open }

  /** The bugs that are not open, in order. */
  function ClosedOf(bugs: seq<Bug>): seq<Bug> { Filter(bugs, IsClosed) }
  function OpenOf(bugs: seq<Bug>): seq<Bug> { Filter(bugs, IsOpen) }

  /** The test "its `key` day is `d`". */
  function SameDay(key: Bug -> Day, d: Day): Bug -> bool {
    b => key(b) == d
  }

  /** The bugs whose `key` day is `d`, in order. */
  function OnDay(bugs: seq<Bug>, key: Bug -> Day, d: Day): seq<Bug> {
    Filter(bugs, SameDay(key, d))
  }

  // ---------------------------------------------------------------------
  // Bucketing: `changes` and `getChange`

  /** The days that get a bucket: every report day, and the last-modified
      day of every non-open bug. */
  function EventDays(bugs: seq<Bug>): set<Day> {
    (set b | b in bugs :: b.reportedAt) + (set b | b in ClosedOf(bugs) :: b.lastModifiedAt)
  }

  /** The bucket of day `d`: the bugs reported on `d` and the non-open
      bugs last modified on `d`. */
  function BucketOf(bugs: seq<Bug>, d: Day): Change {
    Change(d, OnDay(bugs, Reported, d), OnDay(ClosedOf(bugs), LastModified, d))
  }

  /** Each bucket is keyed by its own date. */
  predicate DatedByKey(changes: map<Day, Change>) {
    forall d :: d in changes ==> changes[d].date == d
  }

  /** What `changes` holds once every bug has been placed. */
  function Changes(bugs: seq<Bug>): (changes: map<Day, Change>)
    ensures DatedByKey(changes)
  {
    map d | d in EventDays(bugs) :: BucketOf(bugs, d)
  }

  /** `getChange(date)`: the bucket for `date`, or a new empty one. */
  function GetChange(changes: map<Day, Change>, date: Day): Change {
    if date in changes then changes[date] else Change(date, [], [])
  }

  /** `getChange(bug.reportedAt).bugsOpened.push(bug)` */
  function AddOpened(changes: map<Day, Change>, bug: Bug): map<Day, Change> {
    var change := GetChange(changes, bug.reportedAt);
    changes[bug.reportedAt := change.(bugsOpened := change.bugsOpened + [bug])]
  }

  /** `getChange(bug.lastModifiedAt).bugsClosed.push(bug)` */
  function AddClosed(changes: map<Day, Change>, bug: Bug): map<Day, Change> {
    var change := GetChange(changes, bug.lastModifiedAt);
    changes[bug.lastModifiedAt := change.(bugsClosed := change.bugsClosed + [bug])]
  }

  lemma OnDayEmpty(bugs: seq<Bug>, key: Bug -> Day, d: Day)
    requires forall i :: 0 <= i < |bugs| ==> key(bugs[i]) != d
    ensures OnDay(bugs, key, d) == []
  {
    FilterNone(bugs, SameDay(key, d));
  }

  lemma OnDaySnoc(bugs: seq<Bug>, bug: Bug, key: Bug -> Day, d: Day)
    ensures OnDay(bugs + [bug], key, d) == OnDay(bugs, key, d) + (if key(bug) == d then [bug] else [])
  {
    FilterSnoc(bugs, bug, SameDay(key, d));
  }

  lemma ClosedSnoc(bugs: seq<Bug>, bug: Bug)
    ensures ClosedOf(bugs + [bug]) == ClosedOf(bugs) + (if bug.open then [] else [bug])
  {
    FilterSnoc(bugs, bug, IsClosed);
  }

  /** `getChange(d)` on the finished `changes` is the bucket of day `d`,
      empty when no bug has an event on `d`. */
  lemma Bucket(bugs: seq<Bug>, d: Day)
    ensures GetChange(Changes(bugs), d) == BucketOf(bugs, d)
  {
    if d !in EventDays(bugs) {
      OnDayEmpty(bugs, Reported, d);
      forall i | 0 <= i < |ClosedOf(bugs)|
        ensures LastModified(ClosedOf(bugs)[i]) != d
      {
        assert ClosedOf(bugs)[i] in ClosedOf(bugs);
      }
      OnDayEmpty(ClosedOf(bugs), LastModified, d);
    }
  }

  lemma EventDaysSnoc(bugs: seq<Bug>, bug: Bug)
    ensures EventDays(bugs + [bug]) == EventDays(bugs) + {bug.reportedAt} + (if bug.open then {} else {bug.lastModifiedAt})
  {
    ClosedSnoc(bugs, bug);
  }

  /** What the loop body makes of `changes` for one more bug. */
  function Place(changes: map<Day, Change>, bug: Bug): map<Day, Change> {
    var placed := AddOpened(changes, bug);
    if bug.open then placed else AddClosed(placed, bug)
  }

  lemma PlaceKeys(bugs: seq<Bug>, bug: Bug)
    ensures Place(Changes(bugs), bug).Keys == Changes(bugs + [bug]).Keys
  {
    EventDaysSnoc(bugs, bug);
  }

  /** The loop body appends `bug` to the bucket of its report day and, if
      it is not open, to the bucket of its last-modified day, and leaves
      every other bucket alone. */
  lemma PlaceGet(changes: map<Day, Change>, bug: Bug, d: Day)
    requires DatedByKey(changes)
    ensures DatedByKey(Place(changes, bug))
    ensures GetChange(Place(changes, bug), d) ==
              Change(d, GetChange(changes, d).bugsOpened + (if bug.reportedAt == d then [bug] else []),
                        GetChange(changes, d).bugsClosed + (if !bug.open && bug.lastModifiedAt == d then [bug] else []))
  {
  }

  lemma BucketSnoc(bugs: seq<Bug>, bug: Bug, d: Day)
    ensures BucketOf(bugs + [bug], d) ==
              Change(d, BucketOf(bugs, d).bugsOpened + (if bug.reportedAt == d then [bug] else []),
                        BucketOf(bugs, d).bugsClosed + (if !bug.open && bug.lastModifiedAt == d then [bug] else []))
  {
    ClosedSnoc(bugs, bug);
    OnDaySnoc(bugs, bug, Reported, d);
    if bug.open {
      assert ClosedOf(bugs + [bug]) == ClosedOf(bugs);
      assert BucketOf(bugs, d).bugsClosed + [] == BucketOf(bugs, d).bugsClosed;
    } else {
      OnDaySnoc(ClosedOf(bugs), bug, LastModified, d);
    }
  }

  lemma PlaceBucket(bugs: seq<Bug>, bug: Bug, d: Day)
    ensures GetChange(Place(Changes(bugs), bug), d) == GetChange(Changes(bugs + [bug]), d)
  {
    PlaceGet(Changes(bugs), bug, d);
    Bucket(bugs, d);
    Bucket(bugs + [bug], d);
    BucketSnoc(bugs, bug, d);
  }

  /** Placing one more bug updates `changes` exactly as the loop body does. */
  lemma ChangesSnoc(bugs: seq<Bug>, bug: Bug)
    ensures Changes(bugs + [bug]) == Place(Changes(bugs), bug)
  {
    var after := Place(Changes(bugs), bug);
    PlaceKeys(bugs, bug);
    forall d | d in after
      ensures after[d] == Changes(bugs + [bug])[d]
    {
      PlaceBucket(bugs, bug, d);
    }
  }

  lemma GroupStep(prefix: seq<Bug>, bug: Bug, next: seq<Bug>)
    requires next == prefix + [bug]
    ensures Place(Changes(prefix), bug) == Changes(next)
  {
    ChangesSnoc(prefix, bug);
  }

  /** The bucket loop of `searchAndPlotBugs`: each bug is pushed onto
      `bugsOpened` of its report day and, if it is not open, onto
      `bugsClosed` of its last-modified day. */
  method GroupByDay(bugs: seq<Bug>) returns (changes: map<Day, Change>)
    ensures changes == Changes(bugs)
  {
    changes := map[];
    for i := 0 to |bugs|
      invariant changes == Changes(bugs[..i])
    {
      var bug := bugs[i];
      ghost var before := changes;
      changes := AddOpened(changes, bug);
      if !bug.open {
        changes := AddClosed(changes, bug);
      }
      assert changes == Place(before, bug);
      assert bugs[..i + 1] == bugs[..i] + [bug];
      GroupStep(bugs[..i], bug, bugs[..i + 1]);
    }
    assert bugs[..|bugs|] == bugs;
  }

  /** Every bug sits in `bugsOpened` of exactly one bucket, its report day;
      a non-open bug also sits in `bugsClosed` of exactly one bucket, its
      last-modified day; an open bug is in no `bugsClosed`. */
  lemma BugPlacement(bugs: seq<Bug>, bug: Bug, d: Day)
    requires d in Changes(bugs)
    ensures multiset(Changes(bugs)[d].bugsOpened)[bug] ==
              if bug.reportedAt == d then multiset(bugs)[bug] else 0
    ensures multiset(Changes(bugs)[d].bugsClosed)[bug] ==
              if !bug.open && bug.lastModifiedAt == d then multiset(bugs)[bug] else 0
  {
    FilterCount(bugs, SameDay(Reported, d), bug);
    FilterCount(ClosedOf(bugs), SameDay(LastModified, d), bug);
    FilterCount(bugs, IsClosed, bug);
  }

  /** Every bug's report day has a bucket, and so has the last-modified day of every non-open bug. */
  lemma EveryEventHasABucket(bugs: seq<Bug>, bug: Bug)
    requires bug in bugs
    ensures bug.reportedAt in Changes(bugs)
    ensures !bug.open ==> bug.lastModifiedAt in Changes(bugs)
  {
    if !bug.open {
      FilterCount(bugs, IsClosed, bug);
      assert bug in multiset(ClosedOf(bugs));
    }
  }

  // ---------------------------------------------------------------------
  // `_.sortBy(changes, "date")`

  /** A non-empty set has an element. */
  lemma NonEmpty(days: set<Day>)
    requires days != {}
    ensures exists d :: d in days
  {
    if forall d :: d !in days {
      assert false;
    }
  }

  lemma MinExists(days: set<Day>)
    requires days != {}
    ensures exists m :: m in days && forall d :: d in days ==> m <= d
  {
    NonEmpty(days);
    var x :| x in days;
    var rest := days - {x};
    assert days == rest + {x};
    if rest == {} {
      assert days == {x};
    } else {
      MinExists(rest);
      var m :| m in rest && forall d :: d in rest ==> m <= d;
      var least := if x < m then x else m;
      assert least in days && forall d :: d in days ==> least <= d;
    }
  }

  /** The earliest of a non-empty set of days. */
  function Earliest(days: set<Day>): (m: Day)
    requires days != {}
    ensures m in days && forall d :: d in days ==> m <= d
  {
    MinExists(days);
    var m :| m in days && forall d :: d in days ==> m <= d;
    m
  }

  /** The days of a set in ascending order. */
  function Ascending(days: set<Day>): (r: seq<Day>)
    ensures forall i, j :: 0 <= i < j < |r| ==> r[i] < r[j]
    ensures forall d :: d in r <==> d in days
    decreases days
  {
    if days == {} then []
    else
      var m := Earliest(days);
      [m] + Ascending(days - {m})
  }

  /** `_.sortBy(changes, "date")`: the buckets in ascending date order,
      one per day that has a bucket. */
  function SortByDate(changes: map<Day, Change>): (cs: seq<Change>)
    requires DatedByKey(changes)
    ensures |cs| == |Ascending(changes.Keys)|
    ensures forall i :: 0 <= i < |cs| ==> cs[i].date == Ascending(changes.Keys)[i]
    ensures forall i, j :: 0 <= i < j < |cs| ==> cs[i].date < cs[j].date
    ensures forall i :: 0 <= i < |cs| ==> cs[i].date in changes && cs[i] == changes[cs[i].date]
    ensures forall d :: d in changes ==> exists i :: 0 <= i < |cs| && cs[i].date == d
  {
    var days := Ascending(changes.Keys);
    var cs := BucketsFor(changes, days);
    InDateOrder(changes, days, cs);
    cs
  }

  /** The bucket of each of `days`, in order. */
  function BucketsFor(changes: map<Day, Change>, days: seq<Day>): (cs: seq<Change>)
    requires forall i :: 0 <= i < |days| ==> days[i] in changes
    ensures |cs| == |days| && forall i :: 0 <= i < |cs| ==> days[i] in changes && cs[i] == changes[days[i]]
  {
    seq(|days|, i requires 0 <= i < |days| => changes[days[i]])
  }

  lemma InDateOrder(changes: map<Day, Change>, days: seq<Day>, cs: seq<Change>)
    requires DatedByKey(changes)
    requires forall i, j :: 0 <= i < j < |days| ==> days[i] < days[j]
    requires forall d :: d in days <==> d in changes
    requires |cs| == |days| && forall i :: 0 <= i < |cs| ==> days[i] in changes && cs[i] == changes[days[i]]
    ensures forall i :: 0 <= i < |cs| ==> cs[i].date == days[i]
    ensures forall i, j :: 0 <= i < j < |cs| ==> cs[i].date < cs[j].date
    ensures forall i :: 0 <= i < |cs| ==> cs[i].date in changes && cs[i] == changes[cs[i].date]
    ensures forall d :: d in changes ==> exists i :: 0 <= i < |cs| && cs[i].date == d
  {
    assert forall i :: 0 <= i < |cs| ==> days[i] in days;
    forall d | d in changes
      ensures exists i :: 0 <= i < |cs| && cs[i].date == d
    {
      var i :| 0 <= i < |days| && days[i] == d;
      assert cs[i].date == d;
    }
  }

  // ---------------------------------------------------------------------
  // Running totals

  /** `bug.points || 3`: a bug without points, or with 0 points, counts as 3. */
  function Points(b: Bug): (p: int)
    ensures p != 0
    ensures b.points.Some? && b.points.value != 0 ==> p == b.points.value
  {
    if b.points.Some? && b.points.value != 0 then b.points.value else 3
  }

  /** A bug that `||` sends to the default. */
  predicate Unpointed(b: Bug) {
    b.points.None? || b.points == Some(0)
  }

  /** The points a bug states, 0 when it states none. */
  function GivenPoints(b: Bug): int {
    if b.points.Some? then b.points.value else 0
  }

  function One(b: Bug): int { 1 }

  /** `sumPoints(bugs)` */
  function SumPoints(bugs: seq<Bug>): int { SumBy(bugs, Points) }

  /** `sumPoints` is the sum of the points the bugs state plus 3 for each
      bug that states none or 0. */
  lemma {:induction false} SumPointsCounts(bugs: seq<Bug>)
    ensures SumPoints(bugs) == SumBy(bugs, GivenPoints) + 3 * |Filter(bugs, Unpointed)|
  {
    if |bugs| > 0 {
      SumPointsCounts(bugs[..|bugs| - 1]);
    }
  }

  /** Bugs without points (or with 0 points) count 3 points each. */
  lemma {:induction false} DefaultPoints(bugs: seq<Bug>)
    requires forall i :: 0 <= i < |bugs| ==> bugs[i].points.None? || bugs[i].points == Some(0)
    ensures SumPoints(bugs) == 3 * |bugs|
  {
    if |bugs| > 0 {
      DefaultPoints(bugs[..|bugs| - 1]);
    }
  }

  /** The four running totals of the chart loop. */
  datatype Totals = Totals(openBugs: int, closedBugs: int, openPoints: int, closedPoints: int)

  /** The totals after one more bucket: the closed deltas are the closed
      bugs and their points, the open deltas the opened ones minus those. */
  function Step(t: Totals, c: Change): Totals {
    var closedBugCountDelta := |c.bugsClosed|;
    var closedPointsDelta := SumPoints(c.bugsClosed);
    Totals(t.openBugs + (|c.bugsOpened| - closedBugCountDelta), t.closedBugs + closedBugCountDelta,
           t.openPoints + (SumPoints(c.bugsOpened) - closedPointsDelta), t.closedPoints + closedPointsDelta)
  }

  /** The totals once the given buckets have been walked, starting from 0. */
  function RunningAfter(cs: seq<Change>): Totals {
    if |cs| == 0 then Totals(0, 0, 0, 0) else Step(RunningAfter(cs[..|cs| - 1]), cs[|cs| - 1])
  }

  /** The number of `bugsOpened` entries in the buckets, and their points. */
  function OpenedCount(cs: seq<Change>): int {
    if |cs| == 0 then 0 else OpenedCount(cs[..|cs| - 1]) + |cs[|cs| - 1].bugsOpened|
  }

  function OpenedPoints(cs: seq<Change>): int {
    if |cs| == 0 then 0 else OpenedPoints(cs[..|cs| - 1]) + SumPoints(cs[|cs| - 1].bugsOpened)
  }

  /** After any number of buckets, the open and closed counts add up to the
      bugs opened so far, the open and closed points to their points, and
      the closed count is never negative. */
  lemma {:induction false} OpenPlusClosed(cs: seq<Change>)
    ensures RunningAfter(cs).openBugs + RunningAfter(cs).closedBugs == OpenedCount(cs)
    ensures RunningAfter(cs).openPoints + RunningAfter(cs).closedPoints == OpenedPoints(cs)
    ensures RunningAfter(cs).closedBugs >= 0
  {
    if |cs| > 0 {
      OpenPlusClosed(cs[..|cs| - 1]);
    }
  }

  /** The test "its `key` day is `d` or earlier". */
  function UpTo(key: Bug -> Day, d: Day): Bug -> bool {
    b => key(b) <= d
  }

  /** The bugs reported on `d` or earlier. */
  function ReportedBy(bugs: seq<Bug>, d: Day): seq<Bug> { Filter(bugs, UpTo(Reported, d)) }

  /** The non-open bugs last modified on `d` or earlier. */
  function ClosedBy(bugs: seq<Bug>, d: Day): seq<Bug> { Filter(ClosedOf(bugs), UpTo(LastModified, d)) }

  /** The burndown as of the end of day `d`: closed means closed by `d`,
      open means reported by `d` and not closed by `d`. */
  function TotalsBy(bugs: seq<Bug>, d: Day): Totals {
    var reported, closed := ReportedBy(bugs, d), ClosedBy(bugs, d);
    Totals(|reported| - |closed|, |closed|, SumPoints(reported) - SumPoints(closed), SumPoints(closed))
  }

  /** The sum over the days `ds` of the weights of the bugs whose `key` day it is. */
  function DaySum(xs: seq<Bug>, key: Bug -> Day, ds: seq<Day>, w: Bug -> int): int {
    if |ds| == 0 then 0 else DaySum(xs, key, ds[..|ds| - 1], w) + SumBy(OnDay(xs, key, ds[|ds| - 1]), w)
  }

  predicate Increasing(ds: seq<Day>) {
    forall i, j :: 0 <= i < j < |ds| ==> ds[i] < ds[j]
  }

  lemma {:induction false} LengthSum(xs: seq<Bug>)
    ensures SumBy(xs, One) == |xs|
  {
    if |xs| > 0 {
      LengthSum(xs[..|xs| - 1]);
    }
  }

  lemma {:induction false} DaySumNone(key: Bug -> Day, ds: seq<Day>, w: Bug -> int)
    ensures DaySum([], key, ds, w) == 0
  {
    if |ds| > 0 {
      DaySumNone(key, ds[..|ds| - 1], w);
    }
  }

  /** One more bug adds its weight to the sum of the one day that is its `key` day, if any. */
  lemma {:induction false} DaySumSnoc(xs: seq<Bug>, x: Bug, key: Bug -> Day, ds: seq<Day>, w: Bug -> int)
    requires Increasing(ds)
    ensures DaySum(xs + [x], key, ds, w) == DaySum(xs, key, ds, w) + (if key(x) in ds then w(x) else 0)
  {
    if |ds| > 0 {
      var init, last := ds[..|ds| - 1], ds[|ds| - 1];
      DaySumSnoc(xs, x, key, init, w);
      OnDaySnoc(xs, x, key, last);
      assert ds == init + [last];
      assert key(x) in ds <==> key(x) in init || key(x) == last;
      if key(x) == last {
        SumBySnoc(OnDay(xs, key, last), x, w);
        assert key(x) !in init;
      } else {
        assert OnDay(xs + [x], key, last) == OnDay(xs, key, last);
      }
    }
  }

  /** Summing day by day over increasing days that include every `key` day
      up to the last of them gives the weight of all bugs up to that day. */
  lemma {:induction false} DaySumUpTo(xs: seq<Bug>, key: Bug -> Day, ds: seq<Day>, w: Bug -> int)
    requires Increasing(ds) && |ds| > 0
    requires forall i :: 0 <= i < |xs| ==> key(xs[i]) in ds || key(xs[i]) > ds[|ds| - 1]
    ensures DaySum(xs, key, ds, w) == SumBy(Filter(xs, UpTo(key, ds[|ds| - 1])), w)
  {
    var last := ds[|ds| - 1];
    if |xs| == 0 {
      DaySumNone(key, ds, w);
    } else {
      var init, x := xs[..|xs| - 1], xs[|xs| - 1];
      assert xs == init + [x];
      DaySumUpTo(init, key, ds, w);
      DaySumSnoc(init, x, key, ds, w);
      FilterSnoc(init, x, UpTo(key, last));
      if key(x) in ds {
        assert key(x) <= last;
        SumBySnoc(Filter(init, UpTo(key, last)), x, w);
      } else {
        assert !UpTo(key, last)(x);
        assert Filter(xs, UpTo(key, last)) == Filter(init, UpTo(key, last));
      }
    }
  }

  /** Walking the buckets of the days `ds` sums each day's deltas. */
  lemma {:induction false} RunningAfterBuckets(bugs: seq<Bug>, cs: seq<Change>, ds: seq<Day>)
    requires |cs| == |ds|
    requires forall j :: 0 <= j < |cs| ==> cs[j] == BucketOf(bugs, ds[j])
    ensures RunningAfter(cs) ==
              Totals(DaySum(bugs, Reported, ds, One) - DaySum(ClosedOf(bugs), LastModified, ds, One),
                     DaySum(ClosedOf(bugs), LastModified, ds, One),
                     DaySum(bugs, Reported, ds, Points) - DaySum(ClosedOf(bugs), LastModified, ds, Points),
                     DaySum(ClosedOf(bugs), LastModified, ds, Points))
  {
    if |cs| > 0 {
      var c := cs[|cs| - 1];
      RunningAfterBuckets(bugs, cs[..|cs| - 1], ds[..|ds| - 1]);
      LengthSum(c.bugsOpened);
      LengthSum(c.bugsClosed);
    }
  }

  /** A prefix of increasing days holds every listed day up to its last one. */
  lemma PrefixCovers(xs: seq<Bug>, key: Bug -> Day, days: seq<Day>, k: nat)
    requires Increasing(days) && k < |days|
    requires forall i :: 0 <= i < |xs| ==> key(xs[i]) in days
    ensures forall i :: 0 <= i < |xs| ==> key(xs[i]) in days[..k + 1] || key(xs[i]) > days[k]
  {
    forall i | 0 <= i < |xs|
      ensures key(xs[i]) in days[..k + 1] || key(xs[i]) > days[k]
    {
      var m :| 0 <= m < |days| && days[m] == key(xs[i]);
      if m <= k {
        assert days[..k + 1][m] == days[m];
      } else {
        assert days[k] < days[m];
      }
    }
  }

  /** Every report day, and the last-modified day of every non-open bug, is a bucket's day. */
  lemma EventDaysListed(bugs: seq<Bug>)
    ensures forall i :: 0 <= i < |bugs| ==> Reported(bugs[i]) in Ascending(Changes(bugs).Keys)
    ensures forall i :: 0 <= i < |ClosedOf(bugs)| ==> LastModified(ClosedOf(bugs)[i]) in Ascending(Changes(bugs).Keys)
  {
    forall i | 0 <= i < |ClosedOf(bugs)|
      ensures LastModified(ClosedOf(bugs)[i]) in EventDays(bugs)
    {
      assert ClosedOf(bugs)[i] in ClosedOf(bugs);
    }
  }

  /** The first `k + 1` sorted buckets are those of the first `k + 1` sorted days. */
  lemma SortedBuckets(bugs: seq<Bug>, k: nat)
    requires k < |SortByDate(Changes(bugs))|
    ensures var cs, ds := SortByDate(Changes(bugs))[..k + 1], Ascending(Changes(bugs).Keys)[..k + 1];
            |cs| == |ds| && forall j :: 0 <= j < |cs| ==> cs[j] == BucketOf(bugs, ds[j])
  {
  }

  /** The sorted buckets are those of the sorted days. */
  lemma AllBuckets(bugs: seq<Bug>)
    ensures |SortByDate(Changes(bugs))| == |Ascending(Changes(bugs).Keys)|
    ensures forall j :: 0 <= j < |SortByDate(Changes(bugs))| ==>
              SortByDate(Changes(bugs))[j] == BucketOf(bugs, Ascending(Changes(bugs).Keys)[j])
  {
    var cs, ds := SortByDate(Changes(bugs)), Ascending(Changes(bugs).Keys);
    forall j | 0 <= j < |cs|
      ensures cs[j] == BucketOf(bugs, ds[j])
    {
      assert ds[j] in Changes(bugs).Keys;
    }
  }

  /** Sums over the first `k + 1` of increasing days that list every event
      day are the weights up to the `k`-th day. */
  lemma DaySumsUpTo(bugs: seq<Bug>, days: seq<Day>, k: nat, w: Bug -> int)
    requires Increasing(days) && k < |days|
    requires forall i :: 0 <= i < |bugs| ==> Reported(bugs[i]) in days
    requires forall i :: 0 <= i < |ClosedOf(bugs)| ==> LastModified(ClosedOf(bugs)[i]) in days
    ensures DaySum(bugs, Reported, days[..k + 1], w) == SumBy(ReportedBy(bugs, days[k]), w)
    ensures DaySum(ClosedOf(bugs), LastModified, days[..k + 1], w) == SumBy(ClosedBy(bugs, days[k]), w)
  {
    var ds := days[..k + 1];
    PrefixCovers(bugs, Reported, days, k);
    PrefixCovers(ClosedOf(bugs), LastModified, days, k);
    assert ds[k] == days[k];
    DaySumUpTo(bugs, Reported, ds, w);
    DaySumUpTo(ClosedOf(bugs), LastModified, ds, w);
  }

  /** Walking the buckets of the first `k + 1` of increasing days that list
      every event day gives the burndown as of the `k`-th day. */
  lemma RunningTotalsOver(bugs: seq<Bug>, cs: seq<Change>, days: seq<Day>, k: nat)
    requires Increasing(days) && k < |days| && |cs| == k + 1
    requires forall j :: 0 <= j < |cs| ==> cs[j] == BucketOf(bugs, days[..k + 1][j])
    requires forall i :: 0 <= i < |bugs| ==> Reported(bugs[i]) in days
    requires forall i :: 0 <= i < |ClosedOf(bugs)| ==> LastModified(ClosedOf(bugs)[i]) in days
    ensures RunningAfter(cs) == TotalsBy(bugs, days[k])
  {
    var ds, d := days[..k + 1], days[k];
    RunningAfterBuckets(bugs, cs, ds);
    DaySumsUpTo(bugs, days, k, One);
    DaySumsUpTo(bugs, days, k, Points);
    var reported, closed := ReportedBy(bugs, d), ClosedBy(bugs, d);
    LengthSum(reported);
    LengthSum(closed);
    assert DaySum(bugs, Reported, ds, One) == |reported|;
    assert DaySum(ClosedOf(bugs), LastModified, ds, One) == |closed|;
    assert DaySum(bugs, Reported, ds, Points) == SumPoints(reported);
    assert DaySum(ClosedOf(bugs), LastModified, ds, Points) == SumPoints(closed);
  }

  /** After the bucket of day `d` the running totals are the burndown as of
      day `d`: the closed count is the number of non-open bugs last modified
      by `d`, the open count the number of bugs reported by `d` less those,
      and likewise for points. */
  lemma RunningTotals(bugs: seq<Bug>, k: nat)
    requires k < |SortByDate(Changes(bugs))|
    ensures RunningAfter(SortByDate(Changes(bugs))[..k + 1]) == TotalsBy(bugs, SortByDate(Changes(bugs))[k].date)
  {
    SortedBuckets(bugs, k);
    EventDaysListed(bugs);
    RunningTotalsOver(bugs, SortByDate(Changes(bugs))[..k + 1], Ascending(Changes(bugs).Keys), k);
  }

  // ---------------------------------------------------------------------
  // The chart series

  /** A chart point: a date and the running totals shown for it. */
  datatype Point = Point(date: Day, totals: Totals)

  /** The point of every bucket: its date and the totals after it. */
  function AllPoints(cs: seq<Change>): seq<Point> {
    seq(|cs|, k requires 0 <= k < |cs| => Point(cs[k].date, RunningAfter(cs[..k + 1])))
  }

  lemma AllPointsSnoc(cs: seq<Change>, i: nat)
    requires i < |cs|
    ensures AllPoints(cs[..i + 1]) == AllPoints(cs[..i]) + [Point(cs[i].date, RunningAfter(cs[..i + 1]))]
  {
    forall k | 0 <= k < i
      ensures AllPoints(cs[..i + 1])[k] == AllPoints(cs[..i])[k]
    {
      assert cs[..i + 1][..k + 1] == cs[..i][..k + 1];
    }
    assert cs[..i + 1][..i + 1] == cs[..i + 1];
  }

  /** Walking one more bucket pushes its point when it is dated on or after the start date. */
  lemma EmittedSnoc(cs: seq<Change>, i: nat, start: Day)
    requires i < |cs|
    ensures Emitted(cs[..i + 1], start) ==
              Emitted(cs[..i], start) + (if cs[i].date >= start then [Point(cs[i].date, RunningAfter(cs[..i + 1]))] else [])
  {
    AllPointsSnoc(cs, i);
    FilterSnoc(AllPoints(cs[..i]), Point(cs[i].date, RunningAfter(cs[..i + 1])), OnOrAfter(start));
  }

  lemma RunningSnoc(cs: seq<Change>, i: nat)
    requires i < |cs|
    ensures RunningAfter(cs[..i + 1]) == Step(RunningAfter(cs[..i]), cs[i])
  {
    assert cs[..i + 1][..i] == cs[..i];
  }

  lemma SeriesSnoc(ps: seq<Point>, p: Point)
    ensures SeriesOf(ps + [p]) ==
              Series(SeriesOf(ps).dates + [p.date], SeriesOf(ps).openBugCounts + [p.totals.openBugs],
                     SeriesOf(ps).closedBugCounts + [p.totals.closedBugs],
                     SeriesOf(ps).openPoints + [p.totals.openPoints], SeriesOf(ps).closedPoints + [p.totals.closedPoints])
  {
    assert (ps + [p])[..|ps|] == ps;
  }

  /** The test `change.date >= chartStartDate`. */
  function OnOrAfter(start: Day): Point -> bool {
    (p: Point) => p.date >= start
  }

  /** The points the loop pushes: those of the buckets dated on or after the chart start date. */
  function Emitted(cs: seq<Change>, start: Day): seq<Point> {
    Filter(AllPoints(cs), OnOrAfter(start))
  }

  /** The emitted points are exactly the points of the buckets dated on or
      after the start date: each is some such bucket's point, and each such
      bucket's point is emitted. */
  lemma EmittedExactly(cs: seq<Change>, start: Day)
    ensures forall p :: p in Emitted(cs, start) ==>
              exists k :: 0 <= k < |cs| && cs[k].date >= start && p == AllPoints(cs)[k]
    ensures forall k :: 0 <= k < |cs| && cs[k].date >= start ==> AllPoints(cs)[k] in Emitted(cs, start)
  {
    var all := AllPoints(cs);
    forall p | p in Emitted(cs, start)
      ensures exists k :: 0 <= k < |cs| && cs[k].date >= start && p == all[k]
    {
      var k :| 0 <= k < |all| && all[k] == p;
    }
    forall k | 0 <= k < |cs| && cs[k].date >= start
      ensures all[k] in Emitted(cs, start)
    {
      FilterCount(all, OnOrAfter(start), all[k]);
      assert all[k] in multiset(all);
    }
  }

  /** The five arrays handed to the chart. */
  datatype Series = Series(dates: seq<Day>, openBugCounts: seq<int>, closedBugCounts: seq<int>,
                           openPoints: seq<int>, closedPoints: seq<int>)

  /** The arrays of a list of points: entry `i` of each is a field of point `i`. */
  function SeriesOf(ps: seq<Point>): (s: Series)
    ensures |s.dates| == |s.openBugCounts| == |s.closedBugCounts| == |s.openPoints| == |s.closedPoints| == |ps|
    ensures forall i :: 0 <= i < |ps| ==>
              s.dates[i] == ps[i].date && s.openBugCounts[i] == ps[i].totals.openBugs &&
              s.closedBugCounts[i] == ps[i].totals.closedBugs &&
              s.openPoints[i] == ps[i].totals.openPoints && s.closedPoints[i] == ps[i].totals.closedPoints
  {
    if |ps| == 0 then Series([], [], [], [], [])
    else
      var s, p := SeriesOf(ps[..|ps| - 1]), ps[|ps| - 1];
      Series(s.dates + [p.date], s.openBugCounts + [p.totals.openBugs], s.closedBugCounts + [p.totals.closedBugs],
             s.openPoints + [p.totals.openPoints], s.closedPoints + [p.totals.closedPoints])
  }

  /** "Extend earliest bug count to beginning of chart start date": when the
      first point is later than the start date, a copy of it dated at the
      start date goes in front. */
  function PadStart(ps: seq<Point>, start: Day): seq<Point> {
    if |ps| > 0 && ps[0].date > start then [Point(start, ps[0].totals)] + ps else ps
  }

  /** "Extend last bug count to today": when the last point is earlier than
      today, a copy of it dated today goes at the end. */
  function PadEnd(ps: seq<Point>, today: Day): seq<Point> {
    if |ps| > 0 && ps[|ps| - 1].date < today then ps + [Point(today, ps[|ps| - 1].totals)] else ps
  }

  function Padded(ps: seq<Point>, start: Day, today: Day): seq<Point> {
    PadEnd(PadStart(ps, start), today)
  }

  /** The series drawn for buckets `cs`, chart start date `start` and `today`. */
  function Burndown(cs: seq<Change>, start: Day, today: Day): Series {
    SeriesOf(Padded(Emitted(cs, start), start, today))
  }

  lemma SeriesCons(p: Point, ps: seq<Point>)
    ensures SeriesOf([p] + ps) ==
              Series([p.date] + SeriesOf(ps).dates, [p.totals.openBugs] + SeriesOf(ps).openBugCounts,
                     [p.totals.closedBugs] + SeriesOf(ps).closedBugCounts,
                     [p.totals.openPoints] + SeriesOf(ps).openPoints, [p.totals.closedPoints] + SeriesOf(ps).closedPoints)
  {
    var l, r := SeriesOf([p] + ps), SeriesOf(ps);
    assert l.dates == [p.date] + r.dates;
    assert l.openBugCounts == [p.totals.openBugs] + r.openBugCounts;
    assert l.closedBugCounts == [p.totals.closedBugs] + r.closedBugCounts;
    assert l.openPoints == [p.totals.openPoints] + r.openPoints;
    assert l.closedPoints == [p.totals.closedPoints] + r.closedPoints;
  }

  /** The chart loop of `searchAndPlotBugs`: walks the sorted buckets
      keeping the running totals and pushes a point for each bucket dated
      on or after the chart start date. */
  method WalkBuckets(cs: seq<Change>, start: Day) returns (s: Series)
    ensures s == SeriesOf(Emitted(cs, start))
  {
    var bugDates: seq<Day> := [];
    var openBugCounts: seq<int> := [];
    var closedBugCounts: seq<int> := [];
    var openPoints: seq<int> := [];
    var closedPoints: seq<int> := [];
    var runningOpenBugCount, runningClosedBugCount := 0, 0;
    var runningOpenPoints, runningClosedPoints := 0, 0;
    for i := 0 to |cs|
      invariant Totals(runningOpenBugCount, runningClosedBugCount, runningOpenPoints, runningClosedPoints) == RunningAfter(cs[..i])
      invariant Series(bugDates, openBugCounts, closedBugCounts, openPoints, closedPoints) == SeriesOf(Emitted(cs[..i], start))
    {
      var change := cs[i];
      var closedBugCountDelta := |change.bugsClosed|;
      var openBugCountDelta := |change.bugsOpened| - closedBugCountDelta;
      var closedPointsDelta := SumPoints(change.bugsClosed);
      var openPointsDelta := SumPoints(change.bugsOpened) - closedPointsDelta;
      runningOpenBugCount := runningOpenBugCount + openBugCountDelta;
      runningClosedBugCount := runningClosedBugCount + closedBugCountDelta;
      runningOpenPoints := runningOpenPoints + openPointsDelta;
      runningClosedPoints := runningClosedPoints + closedPointsDelta;
      RunningSnoc(cs, i);
      assert Totals(runningOpenBugCount, runningClosedBugCount, runningOpenPoints, runningClosedPoints) == RunningAfter(cs[..i + 1]);
      EmittedSnoc(cs, i, start);
      if change.date >= start {
        SeriesSnoc(Emitted(cs[..i], start), Point(change.date, RunningAfter(cs[..i + 1])));
        bugDates := bugDates + [change.date];
        openBugCounts := openBugCounts + [runningOpenBugCount];
        closedBugCounts := closedBugCounts + [runningClosedBugCount];
        openPoints := openPoints + [runningOpenPoints];
        closedPoints := closedPoints + [runningClosedPoints];
      } else {
        assert Emitted(cs[..i], start) + [] == Emitted(cs[..i], start);
      }
    }
    assert cs[..|cs|] == cs;
    s := Series(bugDates, openBugCounts, closedBugCounts, openPoints, closedPoints);
  }

  /** The padding of `searchAndPlotBugs`: with at least one point, `unshift`
      a copy of the first point at the chart start date if the first date
      is later, then `push` a copy of the last point at today if the last
      date is earlier. */
  method PadSeries(s0: Series, ghost ps: seq<Point>, start: Day, today: Day) returns (s: Series)
    requires s0 == SeriesOf(ps)
    ensures s == SeriesOf(Padded(ps, start, today))
  {
    var bugDates, openBugCounts, closedBugCounts, openPoints, closedPoints :=
      s0.dates, s0.openBugCounts, s0.closedBugCounts, s0.openPoints, s0.closedPoints;
    if |bugDates| > 0 {
      ghost var front := PadStart(ps, start);
      if bugDates[0] > start {
        SeriesPadStart(ps, start);
        bugDates := [start] + bugDates;
        openBugCounts := [openBugCounts[0]] + openBugCounts;
        closedBugCounts := [closedBugCounts[0]] + closedBugCounts;
        openPoints := [openPoints[0]] + openPoints;
        closedPoints := [closedPoints[0]] + closedPoints;
      }
      assert Series(bugDates, openBugCounts, closedBugCounts, openPoints, closedPoints) == SeriesOf(front);
      if bugDates[|bugDates| - 1] < today {
        var n := |bugDates| - 1;
        SeriesPadEnd(front, today);
        bugDates := bugDates + [today];
        openBugCounts := openBugCounts + [openBugCounts[n]];
        closedBugCounts := closedBugCounts + [closedBugCounts[n]];
        openPoints := openPoints + [openPoints[n]];
        closedPoints := closedPoints + [closedPoints[n]];
      }
    }
    s := Series(bugDates, openBugCounts, closedBugCounts, openPoints, closedPoints);
  }

  /** The `unshift`s of the padding, on the series. */
  lemma SeriesPadStart(ps: seq<Point>, start: Day)
    requires |ps| > 0 && ps[0].date > start
    ensures var s := SeriesOf(ps);
            SeriesOf(PadStart(ps, start)) ==
              Series([start] + s.dates, [s.openBugCounts[0]] + s.openBugCounts, [s.closedBugCounts[0]] + s.closedBugCounts,
                     [s.openPoints[0]] + s.openPoints, [s.closedPoints[0]] + s.closedPoints)
  {
    SeriesCons(Point(start, ps[0].totals), ps);
  }

  /** The `push`es of the padding, on the series. */
  lemma SeriesPadEnd(ps: seq<Point>, today: Day)
    requires |ps| > 0 && ps[|ps| - 1].date < today
    ensures var s, n := SeriesOf(ps), |ps| - 1;
            SeriesOf(PadEnd(ps, today)) ==
              Series(s.dates + [today], s.openBugCounts + [s.openBugCounts[n]], s.closedBugCounts + [s.closedBugCounts[n]],
                     s.openPoints + [s.openPoints[n]], s.closedPoints + [s.closedPoints[n]])
  {
    SeriesSnoc(ps, Point(today, ps[|ps| - 1].totals));
  }

  /** The series of `searchAndPlotBugs` for the sorted buckets. */
  method BuildSeries(cs: seq<Change>, start: Day, today: Day) returns (s: Series)
    ensures s == Burndown(cs, start, today)
  {
    s := WalkBuckets(cs, start);
    s := PadSeries(s, Emitted(cs, start), start, today);
  }

  // ---------------------------------------------------------------------
  // What the chart shows

  /** Dates strictly increase and the closed count never goes down. */
  predicate Chronological(ps: seq<Point>) {
    forall i, j :: 0 <= i < j < |ps| ==> ps[i].date < ps[j].date && ps[i].totals.closedBugs <= ps[j].totals.closedBugs
  }

  /** Walking more buckets never lowers the closed count. */
  lemma {:induction false} ClosedGrows(cs: seq<Change>, i: nat, j: nat)
    requires i <= j <= |cs|
    ensures RunningAfter(cs[..i]).closedBugs <= RunningAfter(cs[..j]).closedBugs
  {
    if i < j {
      ClosedGrows(cs, i, j - 1);
      assert cs[..j][..j - 1] == cs[..j - 1];
    }
  }

  lemma AllPointsChronological(cs: seq<Change>)
    requires forall i, j :: 0 <= i < j < |cs| ==> cs[i].date < cs[j].date
    ensures Chronological(AllPoints(cs))
  {
    forall i, j | 0 <= i < j < |cs|
      ensures AllPoints(cs)[i].totals.closedBugs <= AllPoints(cs)[j].totals.closedBugs
    {
      ClosedGrows(cs, i + 1, j + 1);
    }
  }

  /** Dropping points keeps the rest chronological. */
  lemma {:induction false} FilterChronological(ps: seq<Point>, p: Point -> bool)
    requires Chronological(ps)
    ensures Chronological(Filter(ps, p))
  {
    if |ps| > 0 {
      var init, last := ps[..|ps| - 1], ps[|ps| - 1];
      FilterChronological(init, p);
      var r := Filter(init, p);
      forall a | 0 <= a < |r|
        ensures r[a].date < last.date && r[a].totals.closedBugs <= last.totals.closedBugs
      {
        assert r[a] in init;
        var m :| 0 <= m < |init| && init[m] == r[a];
        assert ps[m] == init[m];
      }
    }
  }

  /** The padding keeps the points chronological when none is before the start date. */
  lemma PaddedChronological(ps: seq<Point>, start: Day, today: Day)
    requires Chronological(ps)
    requires forall i :: 0 <= i < |ps| ==> ps[i].date >= start
    ensures Chronological(Padded(ps, start, today))
  {
    var front := PadStart(ps, start);
    if |ps| > 0 && ps[0].date > start {
      forall i, j | 0 <= i < j < |front|
        ensures front[i].date < front[j].date && front[i].totals.closedBugs <= front[j].totals.closedBugs
      {
        if i > 0 {
          assert front[i] == ps[i - 1] && front[j] == ps[j - 1];
        } else if j > 1 {
          assert front[j] == ps[j - 1];
        }
      }
    }
    assert Chronological(front);
  }

  /** The padding adds at most one point in front and one at the end; when
      there is a point, the first is dated at the start date (no point is
      earlier), the last is dated today or later, and the padded points copy
      the totals of the first and last point. */
  lemma PaddedShape(ps: seq<Point>, start: Day, today: Day)
    requires forall i :: 0 <= i < |ps| ==> ps[i].date >= start
    ensures var r := Padded(ps, start, today);
            (|r| == 0 <==> |ps| == 0) &&
            (|ps| > 0 ==>
               r[0] == Point(start, ps[0].totals) &&
               r[|r| - 1].totals == ps[|ps| - 1].totals &&
               r[|r| - 1].date == (if ps[|ps| - 1].date < today then today else ps[|ps| - 1].date) &&
               var off := if ps[0].date > start then 1 else 0;
               |r| == off + |ps| + (if ps[|ps| - 1].date < today then 1 else 0) &&
               r[off..off + |ps|] == ps)
  {
    if |ps| > 0 {
      var front := PadStart(ps, start);
      var off := if ps[0].date > start then 1 else 0;
      assert |front| == off + |ps| && front[off..off + |ps|] == ps;
      assert front[0] == Point(start, ps[0].totals);
      assert front[|front| - 1] == ps[|ps| - 1];
      var r := PadEnd(front, today);
      assert r[..|front|] == front;
      assert r[off..off + |ps|] == front[off..off + |ps|];
    }
  }

  /** The open and closed bugs split the search result. */
  lemma {:induction false} OpenClosedSplit(bugs: seq<Bug>, w: Bug -> int)
    ensures SumBy(OpenOf(bugs), w) + SumBy(ClosedOf(bugs), w) == SumBy(bugs, w)
  {
    if |bugs| > 0 {
      var init, b := bugs[..|bugs| - 1], bugs[|bugs| - 1];
      assert bugs == init + [b];
      OpenClosedSplit(init, w);
      FilterSnoc(init, b, IsOpen);
      FilterSnoc(init, b, IsClosed);
      if b.open {
        SumBySnoc(OpenOf(init), b, w);
        assert ClosedOf(bugs) == ClosedOf(init);
      } else {
        SumBySnoc(ClosedOf(init), b, w);
        assert OpenOf(bugs) == OpenOf(init);
      }
    }
  }

  /** As of the last of increasing days that list every event day, every
      bug is reported and every non-open bug is closed. */
  lemma TotalsByLastDay(bugs: seq<Bug>, days: seq<Day>)
    requires Increasing(days) && |days| > 0
    requires forall i :: 0 <= i < |bugs| ==> Reported(bugs[i]) in days
    requires forall i :: 0 <= i < |ClosedOf(bugs)| ==> LastModified(ClosedOf(bugs)[i]) in days
    ensures TotalsBy(bugs, days[|days| - 1]) ==
              Totals(|OpenOf(bugs)|, |ClosedOf(bugs)|, SumPoints(OpenOf(bugs)), SumPoints(ClosedOf(bugs)))
  {
    var k := |days| - 1;
    var d := days[k];
    forall i | 0 <= i < |bugs|
      ensures UpTo(Reported, d)(bugs[i])
    {
      var m :| 0 <= m < |days| && days[m] == Reported(bugs[i]);
      assert m < k ==> days[m] < days[k];
    }
    forall i | 0 <= i < |ClosedOf(bugs)|
      ensures UpTo(LastModified, d)(ClosedOf(bugs)[i])
    {
      var m :| 0 <= m < |days| && days[m] == LastModified(ClosedOf(bugs)[i]);
      assert m < k ==> days[m] < days[k];
    }
    FilterAll(bugs, UpTo(Reported, d));
    FilterAll(ClosedOf(bugs), UpTo(LastModified, d));
    OpenClosedSplit(bugs, One);
    OpenClosedSplit(bugs, Points);
    LengthSum(bugs);
    LengthSum(OpenOf(bugs));
    LengthSum(ClosedOf(bugs));
  }

  /** Once every bucket has been walked, the totals are those of the whole
      search result: the open bugs and the non-open ones, and their points. */
  lemma FinalTotals(bugs: seq<Bug>)
    requires |bugs| > 0
    ensures |SortByDate(Changes(bugs))| > 0
    ensures RunningAfter(SortByDate(Changes(bugs))) ==
              Totals(|OpenOf(bugs)|, |ClosedOf(bugs)|, SumPoints(OpenOf(bugs)), SumPoints(ClosedOf(bugs)))
  {
    var cs := SortByDate(Changes(bugs));
    var days := Ascending(Changes(bugs).Keys);
    assert bugs[0].reportedAt in Changes(bugs);
    EventDaysListed(bugs);
    AllBuckets(bugs);
    FinalTotalsOver(bugs, cs, days);
  }

  lemma FinalTotalsOver(bugs: seq<Bug>, cs: seq<Change>, days: seq<Day>)
    requires Increasing(days) && |days| > 0 && |cs| == |days|
    requires forall j :: 0 <= j < |cs| ==> cs[j] == BucketOf(bugs, days[j])
    requires forall i :: 0 <= i < |bugs| ==> Reported(bugs[i]) in days
    requires forall i :: 0 <= i < |ClosedOf(bugs)| ==> LastModified(ClosedOf(bugs)[i]) in days
    ensures RunningAfter(cs) ==
              Totals(|OpenOf(bugs)|, |ClosedOf(bugs)|, SumPoints(OpenOf(bugs)), SumPoints(ClosedOf(bugs)))
  {
    var k := |days| - 1;
    assert days[..k + 1] == days;
    RunningTotalsOver(bugs, cs, days, k);
    TotalsByLastDay(bugs, days);
    var t := Totals(|OpenOf(bugs)|, |ClosedOf(bugs)|, SumPoints(OpenOf(bugs)), SumPoints(ClosedOf(bugs)));
    assert TotalsBy(bugs, days[k]) == t;
    assert RunningAfter(cs) == TotalsBy(bugs, days[k]);
  }

  /** The dates of the chart strictly increase and its closed count never goes down. */
  lemma ChartOrdered(cs: seq<Change>, start: Day, today: Day)
    requires forall i, j :: 0 <= i < j < |cs| ==> cs[i].date < cs[j].date
    ensures var s := Burndown(cs, start, today);
            forall i, j :: 0 <= i < j < |s.dates| ==> s.dates[i] < s.dates[j] && s.closedBugCounts[i] <= s.closedBugCounts[j]
  {
    var ps := Emitted(cs, start);
    AllPointsChronological(cs);
    FilterChronological(AllPoints(cs), OnOrAfter(start));
    assert forall i :: 0 <= i < |ps| ==> ps[i] in ps;
    PaddedChronological(ps, start, today);
  }

  /** No point is emitted when the last bucket is before the start date;
      otherwise the last point emitted is the last bucket's. */
  lemma EmittedEnds(cs: seq<Change>, start: Day)
    requires |cs| > 0
    requires forall i, j :: 0 <= i < j < |cs| ==> cs[i].date < cs[j].date
    ensures cs[|cs| - 1].date < start ==> Emitted(cs, start) == []
    ensures cs[|cs| - 1].date >= start ==>
              |Emitted(cs, start)| > 0 &&
              Emitted(cs, start)[|Emitted(cs, start)| - 1] == Point(cs[|cs| - 1].date, RunningAfter(cs))
  {
    var all := AllPoints(cs);
    var last := all[|all| - 1];
    assert cs[..|cs|] == cs;
    assert last == Point(cs[|cs| - 1].date, RunningAfter(cs));
    assert all[..|all| - 1] + [last] == all;
    if cs[|cs| - 1].date < start {
      forall i | 0 <= i < |all|
        ensures !OnOrAfter(start)(all[i])
      {
        assert i < |cs| - 1 ==> cs[i].date < cs[|cs| - 1].date;
      }
      FilterNone(all, OnOrAfter(start));
    } else {
      FilterSnoc(all[..|all| - 1], last, OnOrAfter(start));
    }
  }

  /** The padded series of points none of which is before the start date
      begins at the start date and ends today or at its last date, with the
      last point's totals. */
  lemma SeriesEnds(ps: seq<Point>, start: Day, today: Day)
    requires |ps| > 0
    requires forall i :: 0 <= i < |ps| ==> ps[i].date >= start
    ensures var s, last := SeriesOf(Padded(ps, start, today)), ps[|ps| - 1];
            var n := |s.dates| - 1;
            n >= 0 && s.dates[0] == start && s.dates[n] == (if last.date < today then today else last.date) &&
            s.openBugCounts[n] == last.totals.openBugs && s.closedBugCounts[n] == last.totals.closedBugs &&
            s.openPoints[n] == last.totals.openPoints && s.closedPoints[n] == last.totals.closedPoints
  {
    PaddedShape(ps, start, today);
  }

  /** When the last bucket is dated before the start date the chart is
      empty; otherwise it begins at the start date and ends today or at the
      last bucket's date, whichever is later, with the totals after the
      last bucket. */
  lemma ChartEnds(cs: seq<Change>, start: Day, today: Day)
    requires |cs| > 0
    requires forall i, j :: 0 <= i < j < |cs| ==> cs[i].date < cs[j].date
    ensures var s, last := Burndown(cs, start, today), cs[|cs| - 1].date;
            (last < start ==> |s.dates| == 0) &&
            (last >= start ==>
               var n := |s.dates| - 1;
               n >= 0 && s.dates[0] == start && s.dates[n] == (if last < today then today else last) &&
               s.openBugCounts[n] == RunningAfter(cs).openBugs && s.closedBugCounts[n] == RunningAfter(cs).closedBugs &&
               s.openPoints[n] == RunningAfter(cs).openPoints && s.closedPoints[n] == RunningAfter(cs).closedPoints)
  {
    var ps := Emitted(cs, start);
    EmittedEnds(cs, start);
    if cs[|cs| - 1].date >= start {
      assert forall i :: 0 <= i < |ps| ==> ps[i] in ps;
      SeriesEnds(ps, start, today);
    }
  }

  /** The chart of a search result: when some bucket is dated on or after
      the start date, its last entry shows the whole result (the open bugs,
      the non-open bugs, and their points). */
  lemma BurndownChart(bugs: seq<Bug>, start: Day, today: Day)
    requires |bugs| > 0
    ensures var cs, s := SortByDate(Changes(bugs)), Burndown(SortByDate(Changes(bugs)), start, today);
            |cs| > 0 &&
            (cs[|cs| - 1].date >= start ==>
               var n := |s.dates| - 1;
               n >= 0 && s.dates[0] == start &&
               s.openBugCounts[n] == |OpenOf(bugs)| && s.closedBugCounts[n] == |ClosedOf(bugs)| &&
               s.openPoints[n] == SumPoints(OpenOf(bugs)) && s.closedPoints[n] == SumPoints(ClosedOf(bugs)))
  {
    FinalTotals(bugs);
    ChartEnds(SortByDate(Changes(bugs)), start, today);
  }

  // ---------------------------------------------------------------------
  // `searchAndPlotBugs`

  /** `months(3)` in days: three "months" of four weeks of seven days. */
  const ChartStartPeriod: int := 3 * 4 * 7

  /** `queryString.since || yyyy_mm_dd(new Date(Date.now() - CHART_START_PERIOD))`.
      `since` is the query's entry (`None` when the parameter is missing or
      has no value) and `parseDay` reads a date text as a day. */
  function ChartStartDate(since: Option<string>, today: Day, parseDay: string -> Day): (d: Day)
    ensures since.None? || since == Some("") ==> d == today - ChartStartPeriod
    ensures since.Some? && since.value != "" ==> d == parseDay(since.value)
  {
    if TruthyText(since) then parseDay(since.value) else today - ChartStartPeriod
  }

  /** `?since` (no value), `?since=` (empty) and a query without `since`
      all start the chart `CHART_START_PERIOD` days before today; `?since=t`
      starts it at the day `t` names. */
  lemma SinceOfQuery(q: BurndownQuery.Query, today: Day, parseDay: string -> Day, t: string)
    ensures "since" !in q ==> ChartStartDate(BurndownQuery.Get(q, "since"), today, parseDay) == today - ChartStartPeriod
    ensures ChartStartDate(BurndownQuery.Get(q["since" := None], "since"), today, parseDay) == today - ChartStartPeriod
    ensures ChartStartDate(BurndownQuery.Get(q["since" := Some("")], "since"), today, parseDay) == today - ChartStartPeriod
    ensures t != "" ==> ChartStartDate(BurndownQuery.Get(q["since" := Some(t)], "since"), today, parseDay) == parseDay(t)
  {
  }

  /** What `$bugzilla.searchBugs` hands its callback: an error, or the bugs found. */
  datatype SearchResult = SearchFailed | Found(bugs: seq<Bug>)

  /** What the page shows: nothing (the error is only logged), "Zarro boogs
      found", or the burndown chart. */
  datatype Plot = NoPlot | ZarroBoogs | Chart(series: Series)

  function PlotOf(result: SearchResult, since: Option<string>, today: Day, parseDay: string -> Day): Plot {
    match result
    case SearchFailed => NoPlot
    case Found(bugs) =>
      if |bugs| == 0 then ZarroBoogs
      else
        var start := ChartStartDate(since, today, parseDay);
        Chart(Burndown(SortByDate(Changes(bugs)), start, today))
  }

  /** The callback of `searchAndPlotBugs`. */
  method OnSearchResult(result: SearchResult, since: Option<string>, today: Day, parseDay: string -> Day) returns (plot: Plot)
    ensures plot == PlotOf(result, since, today, parseDay)
  {
    if result.SearchFailed? {
      return NoPlot;
    }
    var bugs := result.bugs;
    if |bugs| == 0 {
      return ZarroBoogs;
    }
    var changes := GroupByDay(bugs);
    var cs := SortByDate(changes);
    var chartStartDate := ChartStartDate(since, today, parseDay);
    var series := BuildSeries(cs, chartStartDate, today);
    return Chart(series);
  }

  /** An error draws nothing, an empty result draws "Zarro boogs found" and
      any other result draws a chart whose series arrays all have the same length. */
  lemma PlotCases(result: SearchResult, since: Option<string>, today: Day, parseDay: string -> Day)
    ensures PlotOf(result, since, today, parseDay).NoPlot? <==> result.SearchFailed?
    ensures PlotOf(result, since, today, parseDay).ZarroBoogs? <==> result.Found? && |result.bugs| == 0
    ensures PlotOf(result, since, today, parseDay).Chart? ==>
              var s := PlotOf(result, since, today, parseDay).series;
              |s.dates| == |s.openBugCounts| == |s.closedBugCounts| == |s.openPoints| == |s.closedPoints|
  {
  }
}
