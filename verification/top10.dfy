/** `calculateTop10Stats`: the averages over the ten most recently published
    records, leaving out one lowest-read and one highest-read record when
    there are at least three. */
module Top10 {
  import opened JsValue
  import opened Sorting
  import opened Normalize

  /** `a.publishTimestamp || 0` as the comparator subtracts it: the
      subtraction converts the timestamp to a number, so a text holding an
      integer counts as that integer.  A timestamp whose conversion is NaN
      or not an integer is taken as 0. */
  function TimeKey(r: ArticleRecord): real
  {
    match ToInteger(Or(r.publishTimestamp, Num(0)))
    case Some(n) => n as real
    case None => 0.0
  }

  /** A timestamp held as a number or as the text of that number sorts by
      its value; a missing one sorts as 0. */
  lemma TimeKeyOfTimestamp(r: ArticleRecord, n: int)
    ensures r.publishTimestamp == Num(n) ==> TimeKey(r) == n as real
    ensures r.publishTimestamp == Str(IntToString(n)) ==> TimeKey(r) == n as real
    ensures !Truthy(r.publishTimestamp) ==> TimeKey(r) == 0.0
  {
    if r.publishTimestamp == Str(IntToString(n)) {
      IntegerTextOfIntToString(n);
      assert |IntToString(n)| > 0;
    }
  }

  function ReadKey(r: ArticleRecord): real
  {
    r.readNum as real
  }

  const RecentCount := 10

  /** The publish-time sort, newest first. */
  function ByTime(data: seq<ArticleRecord>): (r: seq<ArticleRecord>)
    ensures multiset(r) == multiset(data) && |r| == |data|
    ensures forall i, j :: 0 <= i < j < |r| ==> TimeKey(r[j]) <= TimeKey(r[i])
  {
    var r := SortBy(data, Desc(TimeKey));
    assert forall i, j :: 0 <= i < j < |r| ==> Desc(TimeKey)(r[i]) <= Desc(TimeKey)(r[j]);
    r
  }

  /** `sortedData.slice(0, 10)` */
  function Recent(data: seq<ArticleRecord>): (r: seq<ArticleRecord>)
    ensures |r| == Min(|data|, RecentCount)
    ensures r == ByTime(data)[..|r|]
  {
    var s := ByTime(data);
    SliceInRange(s, 0, Min(|s|, RecentCount));
    Slice(s, 0, RecentCount)
  }

  /** The first `n` of a list sorted newest first are the newest: together
      with the rest they are the whole list, and none of the rest is newer
      than any of them. */
  lemma PrefixIsNewest<T>(s: seq<T>, n: nat, key: T -> real)
    requires n <= |s|
    requires forall i, j :: 0 <= i < j < |s| ==> key(s[j]) <= key(s[i])
    ensures multiset(s[..n]) + multiset(s[n..]) == multiset(s)
    ensures forall x, y :: x in s[..n] && y in s[n..] ==> key(y) <= key(x)
  {
    assert s == s[..n] + s[n..];
    forall x, y | x in s[..n] && y in s[n..]
      ensures key(y) <= key(x)
    {
      var i :| 0 <= i < n && s[..n][i] == x;
      var j :| 0 <= j < |s| - n && s[n..][j] == y;
      assert s[i] == x && s[n + j] == y;
    }
  }

  /** The ten kept are the newest: together with the records left behind
      they are all the records, and none left behind is newer than any
      kept. */
  lemma RecentAreNewest(data: seq<ArticleRecord>)
    ensures var s := ByTime(data);
            var recent := Recent(data);
            && multiset(recent) + multiset(s[|recent|..]) == multiset(data)
            && forall x, y :: x in recent && y in s[|recent|..] ==> TimeKey(y) <= TimeKey(x)
  {
    PrefixIsNewest(ByTime(data), |Recent(data)|, TimeKey);
  }

  /** `sortedByReads` */
  function ByReads(recent: seq<ArticleRecord>): (r: seq<ArticleRecord>)
    ensures multiset(r) == multiset(recent) && |r| == |recent|
    ensures SortedBy(r, ReadKey)
  {
    SortBy(recent, ReadKey)
  }

  /** `sortedByReads.slice(1, -1)` */
  function Trimmed(recent: seq<ArticleRecord>): (r: seq<ArticleRecord>)
    requires |recent| >= 3
    ensures |r| == |recent| - 2
    ensures r == ByReads(recent)[1..|recent| - 1]
  {
    var s := ByReads(recent);
    SliceInRange(s, 1, |s| - 1);
    Slice(s, 1, -1)
  }

  /** Cutting the first and the last element of a sorted list leaves the
      rest, all lying between the two cut. */
  lemma TrimSorted<T>(s: seq<T>, key: T -> real)
    requires |s| >= 2
    requires SortedBy(s, key)
    ensures multiset(s[1..|s| - 1]) + multiset{s[0], s[|s| - 1]} == multiset(s)
    ensures forall x :: x in s ==> key(s[0]) <= key(x) <= key(s[|s| - 1])
  {
    var n := |s|;
    assert s == [s[0]] + s[1..n - 1] + [s[n - 1]];
    assert multiset(s) == multiset{s[0]} + multiset(s[1..n - 1]) + multiset{s[n - 1]};
    forall x | x in s
      ensures key(s[0]) <= key(x) <= key(s[n - 1])
    {
      var k :| 0 <= k < n && s[k] == x;
      assert key(s[0]) <= key(s[k]) || k == 0;
      assert key(s[k]) <= key(s[n - 1]) || k == n - 1;
    }
  }

  /** Trimming drops exactly one record with the fewest reads and one with
      the most: the kept records plus those two are all the records, and
      every record lies between them. */
  lemma TrimmedDropsExtremes(recent: seq<ArticleRecord>)
    requires |recent| >= 3
    ensures var s := ByReads(recent);
            var lo := s[0];
            var hi := s[|s| - 1];
            && multiset(Trimmed(recent)) + multiset{lo, hi} == multiset(recent)
            && (forall x :: x in recent ==> lo.readNum <= x.readNum <= hi.readNum)
  {
    var s := ByReads(recent);
    TrimSorted(s, ReadKey);
    assert forall x :: x in recent <==> x in multiset(s);
  }

  // -----------------------------------------------------------------------
  // The averages

  /** `reduce((sum, item) => sum + f(item), 0)` */
  function Sum<T>(s: seq<T>, f: T -> int): int
  {
    if |s| == 0 then 0 else Sum(s[..|s| - 1], f) + f(s[|s| - 1])
  }

  function SumReal<T>(s: seq<T>, f: T -> real): real
  {
    if |s| == 0 then 0.0 else SumReal(s[..|s| - 1], f) + f(s[|s| - 1])
  }

  function Reads(r: ArticleRecord): int { r.readNum }
  function Likes(r: ArticleRecord): int { r.likeNum }
  function LikePercent(r: ArticleRecord): real { Percent(r.likeReadRatio) }
  function SharePercent(r: ArticleRecord): real { Percent(r.shareReadRatio) }

  /** `Math.round(sum / n)`: the nearest integer, halves rounded up. */
  function RoundedMean(sum: int, n: nat): (r: int)
    requires n > 0
    ensures 2 * n * r - n <= 2 * sum < 2 * n * r + n
  {
    var r := (2 * sum + n) / (2 * n);
    assert 2 * n * r <= 2 * sum + n < 2 * n * r + 2 * n;
    r
  }

  lemma MulMonotone(a: nat, b: int, c: int)
    requires b <= c
    ensures a * b <= a * c
  {
    assert a * c - a * b == a * (c - b);
  }

  /** The nearest integer is unique: any integer within half of the mean is
      the rounded mean. */
  lemma RoundedMeanUnique(sum: int, n: nat, v: int)
    requires n > 0
    requires 2 * n * v - n <= 2 * sum < 2 * n * v + n
    ensures v == RoundedMean(sum, n)
  {
    var r := RoundedMean(sum, n);
    if v >= r + 1 {
      MulMonotone(2 * n, r + 1, v);
    } else if r >= v + 1 {
      MulMonotone(2 * n, v + 1, r);
    }
  }

  datatype Stats = Stats(validArticles: nat, avgRead: int, avgLike: int, avgLikeRatio: real, avgShareRatio: real)

  /** The five figures over one list; all zero for an empty list. */
  function StatsOver(s: seq<ArticleRecord>): (r: Stats)
    ensures r.validArticles == |s|
    ensures |s| == 0 ==> r == Stats(0, 0, 0, 0.0, 0.0)
    ensures |s| > 0 ==> 2 * |s| * r.avgRead - |s| <= 2 * Sum(s, Reads) < 2 * |s| * r.avgRead + |s|
    ensures |s| > 0 ==> 2 * |s| * r.avgLike - |s| <= 2 * Sum(s, Likes) < 2 * |s| * r.avgLike + |s|
    ensures |s| > 0 ==> r.avgLikeRatio * (|s| as real) == SumReal(s, LikePercent)
    ensures |s| > 0 ==> r.avgShareRatio * (|s| as real) == SumReal(s, SharePercent)
  {
    var n := |s|;
    if n == 0 then Stats(0, 0, 0, 0.0, 0.0)
    else
      Stats(n, RoundedMean(Sum(s, Reads), n), RoundedMean(Sum(s, Likes), n),
            SumReal(s, LikePercent) / n as real, SumReal(s, SharePercent) / n as real)
  }

  /** `calculateTop10Stats(data)` */
  function Top10Stats(data: seq<ArticleRecord>): (r: Stats)
    ensures var recent := Recent(data);
            r == if |recent| < 3 then StatsOver(recent) else StatsOver(Trimmed(recent))
    ensures r.validArticles == if |data| < 3 then |data| else Min(|data|, RecentCount) - 2
  {
    var recent := Recent(data);
    if |recent| < 3 then StatsOver(recent) else StatsOver(Trimmed(recent))
  }

  /** Taking one element out of a sum. */
  lemma {:induction false} SumRemove<T>(t: seq<T>, k: nat, f: T -> int)
    requires k < |t|
    ensures Sum(t, f) == Sum(t[..k] + t[k + 1..], f) + f(t[k])
    decreases |t|
  {
    var n := |t| - 1;
    if k < n {
      var u := t[..n];
      SumRemove(u, k, f);
      assert u[..k] + u[k + 1..] + [t[n]] == t[..k] + t[k + 1..];
      assert (t[..k] + t[k + 1..])[..|t| - 2] == u[..k] + u[k + 1..];
    } else {
      assert t[..k] + t[k + 1..] == t[..n];
    }
  }

  lemma MultisetRemove<T>(t: seq<T>, k: nat)
    requires k < |t|
    ensures multiset(t[..k] + t[k + 1..]) == multiset(t) - multiset{t[k]}
  {
    assert t == t[..k] + [t[k]] + t[k + 1..];
  }

  /** A sum depends only on the elements, not on their order. */
  lemma {:induction false} SumPermutation<T>(s: seq<T>, t: seq<T>, f: T -> int)
    requires multiset(s) == multiset(t)
    ensures Sum(s, f) == Sum(t, f)
    decreases |s|
  {
    if |s| > 0 {
      var n := |s| - 1;
      var x := s[n];
      assert x in multiset(t);
      var k :| 0 <= k < |t| && t[k] == x;
      MultisetRemove(t, k);
      MultisetRemove(s, n);
      assert s[..n] + s[n + 1..] == s[..n];
      SumPermutation(s[..n], t[..k] + t[k + 1..], f);
      SumRemove(t, k, f);
    }
  }

  /** With at least three recent records the reads averaged are those of all
      the recent records but the lowest and the highest. */
  lemma TrimmedReadSum(data: seq<ArticleRecord>)
    requires |Recent(data)| >= 3
    ensures var recent := Recent(data);
            var s := ByReads(recent);
            Sum(Trimmed(recent), Reads) == Sum(recent, Reads) - s[0].readNum - s[|s| - 1].readNum
  {
    var recent := Recent(data);
    var s := ByReads(recent);
    TrimmedSum(s, Reads);
    SumPermutation(recent, s, Reads);
  }

  lemma TrimmedSum<T>(s: seq<T>, f: T -> int)
    requires |s| >= 2
    ensures Sum(s[1..|s| - 1], f) == Sum(s, f) - f(s[0]) - f(s[|s| - 1])
  {
    var init := s[..|s| - 1];
    assert Sum(s, f) == Sum(init, f) + f(s[|s| - 1]);
    SumFirst(init, f);
    assert init[1..] == s[1..|s| - 1] && init[0] == s[0];
  }

  lemma SumFirst<T>(t: seq<T>, f: T -> int)
    requires |t| > 0
    ensures Sum(t, f) == f(t[0]) + Sum(t[1..], f)
  {
    SumRemove(t, 0, f);
    assert t[..0] + t[1..] == t[1..];
  }
}
