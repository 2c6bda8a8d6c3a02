/** Observation-period bucketing (`Clock_drift.no_corr_per_avg_date` and
    `recount_correlations_removing_station`): the days on which a station has a
    resolved apparent shift are sorted and grouped greedily, in one pass, into a
    dictionary from a representative day to the number of days it absorbed. */
module Buckets {
  import opened Values

  /** One entry of the dictionary: the key (a day number) and its count. */
  datatype Bucket = Bucket(day: int, count: nat)

  /** The dictionary: `NoCorrelations` is the sentinel `{"No available correlations": 0}`;
      otherwise the entries in insertion order. */
  datatype Periods = NoCorrelations | Counted(buckets: seq<Bucket>)

  function Dist(x: int, y: int): nat
  {
    if x >= y then x - y else y - x
  }

  predicate SortedDays(s: seq<int>)
  {
    forall i :: 0 <= i < |s| - 1 ==> s[i] <= s[i + 1]
  }

  function Insert(x: int, s: seq<int>): (r: seq<int>)
    requires SortedDays(s)
    ensures SortedDays(r) && multiset(r) == multiset(s) + multiset{x}
    ensures |r| == |s| + 1 && (r[0] == x || (s != [] && r[0] == s[0]))
  {
    if s == [] || x <= s[0] then [x] + s
    else
      assert s == [s[0]] + s[1..];
      [s[0]] + Insert(x, s[1..])
  }

  /** Python's `sorted` on the day keys: ascending, and the same days with the same multiplicities. */
  function Sort(s: seq<int>): (r: seq<int>)
    ensures SortedDays(r) && multiset(r) == multiset(s)
  {
    if s == [] then []
    else
      assert s == [s[0]] + s[1..];
      Insert(s[0], Sort(s[1..]))
  }

  /** Position of the entry whose key is `d` (the `dates_unique.get(date)` lookup), or `|bs|`. */
  function KeyIndex(bs: seq<Bucket>, d: int): (k: nat)
    ensures k <= |bs|
    ensures k < |bs| ==> bs[k].day == d
    ensures forall m :: 0 <= m < k ==> bs[m].day != d
  {
    if bs == [] then 0 else if bs[0].day == d then 0 else 1 + KeyIndex(bs[1..], d)
  }

  /** Position of the first-inserted entry whose key lies within `daysApart` days of `d`, or `|bs|`. */
  function FirstWithin(bs: seq<Bucket>, d: int, daysApart: int): (k: nat)
    ensures k <= |bs|
    ensures k < |bs| ==> Dist(bs[k].day, d) < daysApart
    ensures forall m :: 0 <= m < k ==> Dist(bs[m].day, d) >= daysApart
  {
    if bs == [] then 0
    else if Dist(bs[0].day, d) < daysApart then 0
    else 1 + FirstWithin(bs[1..], d, daysApart)
  }

  function Bump(bs: seq<Bucket>, k: nat): seq<Bucket>
    requires k < |bs|
  {
    bs[k := bs[k].(count := bs[k].count + 1)]
  }

  /** One step of the loop: count `d` under its own key, else under the first key within
      the window, else open a new entry for it. */
  function Place(bs: seq<Bucket>, d: int, daysApart: int): seq<Bucket>
  {
    var e := KeyIndex(bs, d);
    if e < |bs| then Bump(bs, e)
    else
      var w := FirstWithin(bs, d, daysApart);
      if w < |bs| then Bump(bs, w) else bs + [Bucket(d, 1)]
  }

  /** The dictionary built from the (sorted) day list `days`. */
  function Bucketize(days: seq<int>, daysApart: int): seq<Bucket>
    requires |days| >= 1
  {
    if |days| == 1 then [Bucket(days[0], 1)]
    else Place(Bucketize(days[..|days| - 1], daysApart), days[|days| - 1], daysApart)
  }

  function PeriodsOf(days: seq<int>, daysApart: int): Periods
  {
    if days == [] then NoCorrelations else Counted(Bucketize(days, daysApart))
  }

  /** The bucket loop of `no_corr_per_avg_date`: the dictionary is built in place, one day at
      a time, scanning its keys in insertion order for the first one within the window. */
  method CountPeriods(days: seq<int>, daysApart: int) returns (p: Periods)
    ensures p == PeriodsOf(days, daysApart)
    ensures p == NoCorrelations <==> days == []
  {
    if days == [] {
      return NoCorrelations;
    }
    var bs := [Bucket(days[0], 1)];
    var i := 1;
    while i < |days|
      invariant 1 <= i <= |days|
      invariant bs == Bucketize(days[..i], daysApart)
    {
      var d := days[i];
      assert days[..i + 1][..i] == days[..i];
      var e := KeyIndex(bs, d);
      if e < |bs| {
        bs := Bump(bs, e);
      } else {
        var j := 0;
        while j < |bs| && Dist(bs[j].day, d) >= daysApart
          invariant 0 <= j <= |bs|
          invariant forall m :: 0 <= m < j ==> Dist(bs[m].day, d) >= daysApart
        {
          j := j + 1;
        }
        if j < |bs| {
          bs := Bump(bs, j);
        } else {
          bs := bs + [Bucket(d, 1)];
        }
      }
      i := i + 1;
    }
    assert days[..|days|] == days;
    p := Counted(bs);
  }

  function Total(bs: seq<Bucket>): nat
  {
    if bs == [] then 0 else Total(bs[..|bs| - 1]) + bs[|bs| - 1].count
  }

  lemma {:induction false} TotalBump(bs: seq<Bucket>, k: nat)
    requires k < |bs|
    ensures Total(Bump(bs, k)) == Total(bs) + 1
  {
    var n := |bs| - 1;
    var b := Bump(bs, k);
    assert b[..n] == if k == n then bs[..n] else Bump(bs[..n], k);
    if k < n {
      TotalBump(bs[..n], k);
    }
  }

  lemma TotalAppend(bs: seq<Bucket>, x: Bucket)
    ensures Total(bs + [x]) == Total(bs) + x.count
  {
    assert (bs + [x])[..|bs|] == bs;
  }

  /** Every day is counted exactly once: the counts add up to the number of days. */
  lemma {:induction false} BucketizeTotal(days: seq<int>, daysApart: int)
    requires |days| >= 1
    ensures Total(Bucketize(days, daysApart)) == |days|
  {
    if |days| > 1 {
      var bs := Bucketize(days[..|days| - 1], daysApart);
      BucketizeTotal(days[..|days| - 1], daysApart);
      var d := days[|days| - 1];
      var e := KeyIndex(bs, d);
      var w := FirstWithin(bs, d, daysApart);
      if e < |bs| {
        TotalBump(bs, e);
      } else if w < |bs| {
        TotalBump(bs, w);
      } else {
        TotalAppend(bs, Bucket(d, 1));
      }
    }
  }

  /** Every entry absorbed at least one day. */
  lemma {:induction false} BucketizePositive(days: seq<int>, daysApart: int)
    requires |days| >= 1
    ensures forall k :: 0 <= k < |Bucketize(days, daysApart)| ==> Bucketize(days, daysApart)[k].count >= 1
  {
    if |days| > 1 {
      BucketizePositive(days[..|days| - 1], daysApart);
    }
  }

  /** Keys are pairwise different and, in insertion order, at least `daysApart` days apart. */
  ghost predicate Separated(bs: seq<Bucket>, daysApart: int)
  {
    forall i, j :: 0 <= i < j < |bs| ==> bs[i].day != bs[j].day && Dist(bs[i].day, bs[j].day) >= daysApart
  }

  lemma {:induction false} BucketizeSeparated(days: seq<int>, daysApart: int)
    requires |days| >= 1
    ensures Separated(Bucketize(days, daysApart), daysApart)
  {
    if |days| > 1 {
      var bs := Bucketize(days[..|days| - 1], daysApart);
      BucketizeSeparated(days[..|days| - 1], daysApart);
      var d := days[|days| - 1];
      if KeyIndex(bs, d) == |bs| && FirstWithin(bs, d, daysApart) == |bs| {
        var r := bs + [Bucket(d, 1)];
        forall i, j | 0 <= i < j < |r|
          ensures r[i].day != r[j].day && Dist(r[i].day, r[j].day) >= daysApart
        {
          if j == |bs| {
            assert Dist(bs[i].day, d) == Dist(r[i].day, r[j].day);
          }
        }
      }
    }
  }

  /** `d` lies in the window of (or is) some key of `bs`. */
  ghost predicate InPeriod(bs: seq<Bucket>, d: int, daysApart: int)
  {
    exists k :: 0 <= k < |bs| && (bs[k].day == d || Dist(bs[k].day, d) < daysApart)
  }

  /** `Place` keeps every existing key where it was. */
  lemma PlaceKeepsKeys(bs: seq<Bucket>, d: int, daysApart: int)
    ensures |Place(bs, d, daysApart)| >= |bs|
    ensures forall k :: 0 <= k < |bs| ==> Place(bs, d, daysApart)[k].day == bs[k].day
  {
  }

  /** `Place` puts `d` within the window of (or under) some key. */
  lemma PlaceCovers(bs: seq<Bucket>, d: int, daysApart: int)
    ensures InPeriod(Place(bs, d, daysApart), d, daysApart)
  {
    var r := Place(bs, d, daysApart);
    var e := KeyIndex(bs, d);
    var w := FirstWithin(bs, d, daysApart);
    if e < |bs| {
      assert r[e].day == d;
    } else if w < |bs| {
      assert r[w].day == bs[w].day;
    } else {
      assert r[|bs|].day == d;
    }
  }

  /** Every day is the key of, or within `daysApart` days of the key of, some entry. */
  lemma {:induction false} BucketizeCovers(days: seq<int>, daysApart: int)
    requires |days| >= 1
    ensures forall n :: 0 <= n < |days| ==> InPeriod(Bucketize(days, daysApart), days[n], daysApart)
  {
    var r := Bucketize(days, daysApart);
    if |days| == 1 {
      assert r[0].day == days[0];
    } else {
      var pre := days[..|days| - 1];
      var bs := Bucketize(pre, daysApart);
      BucketizeCovers(pre, daysApart);
      var d := days[|days| - 1];
      PlaceKeepsKeys(bs, d, daysApart);
      forall n | 0 <= n < |days|
        ensures InPeriod(r, days[n], daysApart)
      {
        if n < |days| - 1 {
          assert days[n] == pre[n];
          assert InPeriod(bs, pre[n], daysApart);
          var k :| 0 <= k < |bs| && (bs[k].day == days[n] || Dist(bs[k].day, days[n]) < daysApart);
          assert r[k].day == bs[k].day;
        } else {
          PlaceCovers(bs, d, daysApart);
        }
      }
    }
  }

  /** Every key is one of the days. */
  lemma {:induction false} BucketizeKeys(days: seq<int>, daysApart: int)
    requires |days| >= 1
    ensures forall k :: 0 <= k < |Bucketize(days, daysApart)| ==> Bucketize(days, daysApart)[k].day in days
  {
    var r := Bucketize(days, daysApart);
    if |days| > 1 {
      var pre := days[..|days| - 1];
      var bs := Bucketize(pre, daysApart);
      BucketizeKeys(pre, daysApart);
      var d := days[|days| - 1];
      PlaceKeepsKeys(bs, d, daysApart);
      forall k | 0 <= k < |r|
        ensures r[k].day in days
      {
        if k < |bs| {
          assert bs[k].day in pre;
        } else {
          assert r[k].day == d;
        }
      }
    }
  }

  /** The properties of `no_corr_per_avg_date`'s dictionary: the empty list gives the sentinel;
      otherwise the counts add up to the number of days, each is at least one, and the keys are
      distinct days of the list, pairwise at least `daysApart` days apart, with every day within
      the window of a key. */
  lemma PeriodsOfFacts(days: seq<int>, daysApart: int)
    ensures days == [] ==> PeriodsOf(days, daysApart) == NoCorrelations
    ensures days != [] ==>
      var bs := PeriodsOf(days, daysApart).buckets;
      && Total(bs) == |days|
      && (forall k :: 0 <= k < |bs| ==> bs[k].count >= 1 && bs[k].day in days)
      && Separated(bs, daysApart)
      && (forall n :: 0 <= n < |days| ==> InPeriod(bs, days[n], daysApart))
  {
    if days != [] {
      BucketizeTotal(days, daysApart);
      BucketizePositive(days, daysApart);
      BucketizeSeparated(days, daysApart);
      BucketizeCovers(days, daysApart);
      BucketizeKeys(days, daysApart);
    }
  }

  /** The worked example: with a 60-day window, 2020-01-01 and 2020-01-03 share an entry
      and 2020-04-01 opens a second one. */
  lemma ExampleThreeDates()
    ensures PeriodsOf([18262, 18264, 18353], 60) == Counted([Bucket(18262, 2), Bucket(18353, 1)])
  {
    assert [18262, 18264, 18353][..2] == [18262, 18264];
    assert [18262, 18264][..1] == [18262];
  }

  /** Number of entries whose count reaches `threshold` (the sentinel's count is 0). */
  function PeriodsMeeting(p: Periods, threshold: int): nat
  {
    match p
    case NoCorrelations => if 0 >= threshold then 1 else 0
    case Counted(bs) => CountMeeting(bs, threshold)
  }

  function CountMeeting(bs: seq<Bucket>, threshold: int): (n: nat)
    ensures n <= |bs|
  {
    if bs == [] then 0
    else CountMeeting(bs[..|bs| - 1], threshold) + (if bs[|bs| - 1].count >= threshold then 1 else 0)
  }
}
