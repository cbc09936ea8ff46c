/** The records table of the side panel: the sort a header click cycles
    through (`handleSort`, `sortData`), and the page of twenty rows shown
    (`changePage`, `renderTable`, `updatePagination`). */
module Table {
  import opened JsValue
  import opened Sorting
  import opened Normalize
  import Top10

  /** The numeric columns a header can sort by. */
  datatype Column =
    | PublishTimestamp
    | ReadNum | LikeNum | CommentNum | ShareNum | RecommendNum | TotalPush
    | LikeReadRatio | ShareReadRatio | RecommendReadRatio

  function NumOr0(v: Js): real
  {
    match v
    case Num(n) => n as real
    case _ => 0.0
  }

  /** The value the comparator of `sortData` compares for a column: the
      timestamp `|| 0`, a ratio through `parseFloat(...) || 0`, a count as
      it is. */
  function ColumnKey(c: Column): (k: ArticleRecord -> real)
    ensures c == PublishTimestamp ==> k == Top10.TimeKey
    ensures c == ReadNum ==> forall rec: ArticleRecord :: k(rec) == rec.readNum as real
    ensures c == TotalPush ==> forall rec: ArticleRecord ::
              k(rec) == (if rec.totalPush.Num? then rec.totalPush.n as real else 0.0)
    ensures c in {LikeReadRatio, ShareReadRatio, RecommendReadRatio} ==> forall rec: ArticleRecord ::
              var ratio := if c == LikeReadRatio then rec.likeReadRatio
                           else if c == ShareReadRatio then rec.shareReadRatio else rec.recommendReadRatio;
              && (ratio.Zero? ==> k(rec) == 0.0)
              && (ratio.Share? && ratio.readCount > 0 ==> k(rec) * (ratio.readCount as real) == 100.0 * (ratio.count as real))
  {
    match c
    case PublishTimestamp => Top10.TimeKey
    case ReadNum => (r: ArticleRecord) => r.readNum as real
    case LikeNum => (r: ArticleRecord) => r.likeNum as real
    case CommentNum => (r: ArticleRecord) => r.commentNum as real
    case ShareNum => (r: ArticleRecord) => r.shareNum as real
    case RecommendNum => (r: ArticleRecord) => r.recommendNum as real
    case TotalPush => (r: ArticleRecord) => NumOr0(Or(r.totalPush, Num(0)))
    case LikeReadRatio => (r: ArticleRecord) => Percent(r.likeReadRatio)
    case ShareReadRatio => (r: ArticleRecord) => Percent(r.shareReadRatio)
    case RecommendReadRatio => (r: ArticleRecord) => Percent(r.recommendReadRatio)
  }

  datatype Direction = Ascending | Descending

  /** `currentSort`: no column and no direction, or both. */
  datatype SortState = Unsorted | SortedOn(column: Column, dir: Direction)

  /** The key a stable ascending sort uses for a column and a direction. */
  function DirectedKey(c: Column, d: Direction): ArticleRecord -> real
  {
    if d == Ascending then ColumnKey(c) else Desc(ColumnKey(c))
  }

  /** `sortData(column, direction)` on the rows shown: a stable sort, the
      comparator answering -1, 0 or 1 as the keys compare. */
  function SortRows(rows: seq<ArticleRecord>, c: Column, d: Direction): (r: seq<ArticleRecord>)
    ensures multiset(r) == multiset(rows) && |r| == |rows|
    ensures d == Ascending ==> forall i, j :: 0 <= i < j < |r| ==> ColumnKey(c)(r[i]) <= ColumnKey(c)(r[j])
    ensures d == Descending ==> forall i, j :: 0 <= i < j < |r| ==> ColumnKey(c)(r[j]) <= ColumnKey(c)(r[i])
  {
    var r := SortBy(rows, DirectedKey(c, d));
    assert forall i, j :: 0 <= i < j < |r| ==> DirectedKey(c, d)(r[i]) <= DirectedKey(c, d)(r[j]);
    r
  }

  /** Rows with equal keys keep the order they had on screen. */
  lemma SortRowsStable(rows: seq<ArticleRecord>, c: Column, d: Direction, v: real)
    ensures WithKey(SortRows(rows, c, d), DirectedKey(c, d), v) == WithKey(rows, DirectedKey(c, d), v)
  {
    SortByStable(rows, DirectedKey(c, d), v);
  }

  const PageSize := 20

  /** `originalData`, `currentData`, `currentSort` and `currentPage`. */
  datatype View = View(original: seq<ArticleRecord>, current: seq<ArticleRecord>, sort: SortState, page: int)

  /** The shown rows are the loaded records in some order, the page is at
      least 1, and a column is sorted on or the stored order is shown. */
  predicate Consistent(v: View)
  {
    && multiset(v.current) == multiset(v.original)
    && v.page >= 1
    && (v.sort.Unsorted? ==> v.current == v.original)
  }

  /** `loadStoredData`: everything reset to the stored order on page 1. */
  function Load(data: seq<ArticleRecord>): (v: View)
    ensures Consistent(v)
    ensures v.current == data && v.sort == Unsorted && v.page == 1
  {
    View(data, data, Unsorted, 1)
  }

  /** The direction after a click on a header: ascending on a new column,
      then descending, then none. */
  function NextDirection(s: SortState, c: Column): (d: Option<Direction>)
    ensures !(s.SortedOn? && s.column == c) ==> d == Some(Ascending)
    ensures s == SortedOn(c, Ascending) ==> d == Some(Descending)
    ensures s == SortedOn(c, Descending) ==> d.None?
  {
    if s.SortedOn? && s.column == c then
      if s.dir == Ascending then Some(Descending) else None
    else Some(Ascending)
  }

  /** `handleSort` for a click on the header of column `c`. */
  function HandleSort(v: View, c: Column): (w: View)
    ensures w.original == v.original && w.page == 1
    ensures Consistent(v) ==> multiset(w.current) == multiset(v.current)
    ensures NextDirection(v.sort, c).None? ==> w.sort == Unsorted && w.current == v.original
    ensures NextDirection(v.sort, c).Some? ==>
              w.sort == SortedOn(c, NextDirection(v.sort, c).value)
              && w.current == SortRows(v.current, c, NextDirection(v.sort, c).value)
    ensures Consistent(v) ==> Consistent(w)
  {
    match NextDirection(v.sort, c)
    case Some(d) => View(v.original, SortRows(v.current, c, d), SortedOn(c, d), 1)
    case None => View(v.original, v.original, Unsorted, 1)
  }

  /** Three clicks on one header: ascending, descending, then the stored
      order again. */
  lemma SortCycle(v: View, c: Column)
    requires Consistent(v)
    requires !(v.sort.SortedOn? && v.sort.column == c)
    ensures HandleSort(v, c).sort == SortedOn(c, Ascending)
    ensures HandleSort(HandleSort(v, c), c).sort == SortedOn(c, Descending)
    ensures var w := HandleSort(HandleSort(HandleSort(v, c), c), c);
            w.sort == Unsorted && w.current == v.original && w.page == 1
  {
  }

  /** Two clicks on a new header show the same rows, largest value first. */
  lemma AscendingThenDescendingSameRows(v: View, c: Column)
    requires !(v.sort.SortedOn? && v.sort.column == c)
    ensures multiset(HandleSort(HandleSort(v, c), c).current) == multiset(v.current)
    ensures var r := HandleSort(HandleSort(v, c), c).current;
            forall i, j :: 0 <= i < j < |r| ==> ColumnKey(c)(r[j]) <= ColumnKey(c)(r[i])
  {
    assert NextDirection(v.sort, c) == Some(Ascending);
    var w1 := HandleSort(v, c);
    assert w1.sort == SortedOn(c, Ascending) && w1.current == SortRows(v.current, c, Ascending);
    assert NextDirection(w1.sort, c) == Some(Descending);
    var w2 := HandleSort(w1, c);
    assert w2.current == SortRows(w1.current, c, Descending);
  }

  // -----------------------------------------------------------------------
  // Paging

  /** `Math.ceil(n / pageSize)` */
  function TotalPages(n: nat): (r: nat)
    ensures n == 0 <==> r == 0
    ensures PageSize * (r - 1) < n <= PageSize * r || n == 0
  {
    (n + PageSize - 1) / PageSize
  }

  /** `changePage(page)`: only a page from 1 to the page count is taken. */
  function ChangePage(v: View, p: int): (w: View)
    ensures w.original == v.original && w.current == v.current && w.sort == v.sort
    ensures w.page == if 1 <= p <= TotalPages(|v.current|) then p else v.page
    ensures Consistent(v) ==> Consistent(w)
  {
    if 1 <= p <= TotalPages(|v.current|) then v.(page := p) else v
  }

  /** `currentData.slice(startIndex, startIndex + pageSize)` */
  function PageRows(rows: seq<ArticleRecord>, p: int): (r: seq<ArticleRecord>)
    requires p >= 1
    ensures |r| <= PageSize
    ensures (p - 1) * PageSize <= |rows| ==> r == rows[(p - 1) * PageSize .. Min(p * PageSize, |rows|)]
    ensures (p - 1) * PageSize >= |rows| ==> r == []
  {
    var start := (p - 1) * PageSize;
    if start <= |rows| then SliceInRange(rows, start, Min(start + PageSize, |rows|)); Slice(rows, start, start + PageSize)
    else Slice(rows, start, start + PageSize)
  }

  /** The first `k` pages one after the other. */
  function Pages(rows: seq<ArticleRecord>, k: nat): seq<ArticleRecord>
  {
    if k == 0 then [] else Pages(rows, k - 1) + PageRows(rows, k)
  }

  /** The pages one after the other are the first `k * 20` rows. */
  lemma {:induction false} PagesArePrefix(rows: seq<ArticleRecord>, k: nat)
    ensures Pages(rows, k) == rows[..Min(k * PageSize, |rows|)]
  {
    if k > 0 {
      PagesArePrefix(rows, k - 1);
      var a := Min((k - 1) * PageSize, |rows|);
      var b := Min(k * PageSize, |rows|);
      if (k - 1) * PageSize <= |rows| {
        assert rows[..b] == rows[..a] + rows[a..b];
      } else {
        assert a == b == |rows|;
      }
    }
  }

  /** The pages from 1 to the page count show every row exactly once, in
      order. */
  lemma PagesPartitionRows(rows: seq<ArticleRecord>)
    ensures Pages(rows, TotalPages(|rows|)) == rows
  {
    PagesArePrefix(rows, TotalPages(|rows|));
  }

  /** What `updatePagination` shows. */
  datatype PagerInfo = PagerInfo(first: int, last: int, total: nat, prevDisabled: bool, nextDisabled: bool, visible: bool)

  function Pager(v: View): (r: PagerInfo)
    requires v.page >= 1
    ensures r.total == |v.current|
    ensures r.visible <==> |v.current| > PageSize
    ensures r.prevDisabled <==> v.page == 1
    ensures (v.page - 1) * PageSize < |v.current| ==> r.last - r.first + 1 == |PageRows(v.current, v.page)|
    ensures r.nextDisabled <==> (v.page - 1) * PageSize + |PageRows(v.current, v.page)| >= |v.current|
  {
    var n := |v.current|;
    var total := TotalPages(n);
    PagerInfo((v.page - 1) * PageSize + 1, Min(v.page * PageSize, n), n, v.page <= 1, v.page >= total, total > 1)
  }
}
