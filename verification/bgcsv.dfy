/** The background script's CSV export (`convertToCSV` in the background
    script): one line per article across every snapshot's publish list,
    under a header line naming the eight extracted fields. */
module BackgroundCsv {
  import opened JsValue
  import opened Csv

  /** The eight values extracted for one article, in header order. */
  datatype Article = Article(title: Js, readNum: Js, likeNum: Js, commentNum: Js, shareNum: Js,
                             contentUrl: Js, publishTime: Js, extractTime: Js)

  const Headers: seq<string> := ["title", "read_num", "like_num", "comment_num", "share_num",
                                 "content_url", "publish_time", "extract_time"]

  function Values(a: Article): (r: seq<Js>)
    ensures |r| == |Headers|
  {
    [a.title, a.readNum, a.likeNum, a.commentNum, a.shareNum, a.contentUrl, a.publishTime, a.extractTime]
  }

  /** `out` is what `source || fallback` gives: the source itself when it
      is truthy, the fallback otherwise. */
  predicate KeptOr(source: Js, out: Js, fallback: Js)
  {
    (Truthy(source) ==> out == source) && (!Truthy(source) ==> out == fallback)
  }

  /** The article object pushed for one `appmsg_info` entry: missing texts
      become '' and missing counts 0.  Reading a field of a missing entry
      throws. */
  function ArticleOf(article: Js, publish: Js, item: Js): (r: Result<Article>)
    ensures r.Err? <==> article.Undef? || article.Null?
    ensures r.Ok? ==> KeptOr(Field(article, "title"), r.value.title, Str(""))
    ensures r.Ok? ==> KeptOr(Field(article, "read_num"), r.value.readNum, Num(0))
    ensures r.Ok? ==> KeptOr(Field(article, "like_num"), r.value.likeNum, Num(0))
    ensures r.Ok? ==> KeptOr(Field(article, "comment_num"), r.value.commentNum, Num(0))
    ensures r.Ok? ==> KeptOr(Field(article, "share_num"), r.value.shareNum, Num(0))
    ensures r.Ok? ==> KeptOr(Field(article, "content_url"), r.value.contentUrl, Str(""))
    ensures r.Ok? ==> KeptOr(GetOpt(GetOpt(publish, "view"), "publishDate"), r.value.publishTime, Str(""))
    ensures r.Ok? ==> KeptOr(GetOpt(item, "saveTime"), r.value.extractTime, Str(""))
    ensures r.Ok? ==> forall v :: v in Values(r.value) ==> !v.Undef? && !v.Null?
  {
    match Get(article, "title")
    case Err(e) => Err(e)
    case Ok(title) =>
      Ok(Article(
        Or(title, Str("")),
        Or(Field(article, "read_num"), Num(0)),
        Or(Field(article, "like_num"), Num(0)),
        Or(Field(article, "comment_num"), Num(0)),
        Or(Field(article, "share_num"), Num(0)),
        Or(Field(article, "content_url"), Str("")),
        Or(GetOpt(GetOpt(publish, "view"), "publishDate"), Str("")),
        Or(GetOpt(item, "saveTime"), Str(""))))
  }

  /** `publish.appmsg_info.forEach(...)` over the entries from `i`. */
  function FromEntries(entries: seq<Js>, publish: Js, item: Js): (r: Result<seq<Article>>)
    ensures r.Ok? ==> |r.value| == |entries|
    ensures r.Ok? <==> forall k :: 0 <= k < |entries| ==> !entries[k].Undef? && !entries[k].Null?
    ensures r.Ok? ==> forall k :: 0 <= k < |entries| ==> r.value[k] == ArticleOf(entries[k], publish, item).value
  {
    MapResult(entries, (e: Js) => ArticleOf(e, publish, item))
  }

  /** A truthy value `forEach` can be called on: only an array. */
  function ForEachList(v: Js): (r: Result<seq<Js>>)
    ensures r.Err? <==> Truthy(v) && !v.Arr?
    ensures v.Arr? ==> r == Ok(v.items)
    ensures !Truthy(v) ==> r == Ok([])
  {
    if !Truthy(v) then Ok([]) else if v.Arr? then Ok(v.items) else Err(TypeError)
  }

  /** The body of `publish_list.forEach`: the articles of one publish's
      `appmsg_info`, none when it is falsy. */
  function PublishArticles(publish: Js, item: Js): (r: Result<seq<Article>>)
    ensures var list := ForEachList(Field(publish, "appmsg_info"));
            r.Err? <==> Nullish(publish) || list.Err?
                        || exists k :: 0 <= k < |list.value| && Nullish(list.value[k])
    ensures var list := ForEachList(Field(publish, "appmsg_info"));
            r.Ok? ==> |r.value| == |list.value|
                      && forall k :: 0 <= k < |list.value| ==> r.value[k] == ArticleOf(list.value[k], publish, item).value
    ensures !Nullish(publish) && !Truthy(Field(publish, "appmsg_info")) ==> r == Ok([])
  {
    match Get(publish, "appmsg_info")
    case Err(e) => Err(e)
    case Ok(info) =>
      match ForEachList(info)
      case Err(e) => Err(e)
      case Ok(entries) => FromEntries(entries, publish, item)
  }

  /** `item.data.publish_list.forEach(...)` over the publishes: the
      articles of each publish, publish after publish. */
  function FromPublishes(publishes: seq<Js>, item: Js): (r: Result<seq<Article>>)
    ensures r.Ok? <==> forall k :: 0 <= k < |publishes| ==> PublishArticles(publishes[k], item).Ok?
  {
    FlatMapResult(publishes, (p: Js) => PublishArticles(p, item))
  }

  /** The publish list the loop over an item walks: none unless `data` is
      truthy. */
  function PublishListOf(item: Js): Js
  {
    var d := Field(item, "data");
    if Truthy(d) then Field(d, "publish_list") else Undef
  }

  /** The body of `data.forEach`: reading `item.data` throws when the
      snapshot is `undefined` or `null`. */
  function ItemArticles(item: Js): (r: Result<seq<Article>>)
    ensures var list := ForEachList(PublishListOf(item));
            r.Err? <==> Nullish(item) || list.Err?
                        || exists k :: 0 <= k < |list.value| && PublishArticles(list.value[k], item).Err?
    ensures !Nullish(item) && !Truthy(PublishListOf(item)) ==> r == Ok([])
    ensures !Nullish(item) && PublishListOf(item).Arr? ==> r == FromPublishes(PublishListOf(item).items, item)
  {
    match Get(item, "data")
    case Err(e) => Err(e)
    case Ok(_) =>
      match ForEachList(PublishListOf(item))
      case Err(e) => Err(e)
      case Ok(publishes) => FromPublishes(publishes, item)
  }

  /** `data.forEach(...)` over the snapshots: the articles of each
      snapshot, snapshot after snapshot. */
  function FromItems(items: seq<Js>): (r: Result<seq<Article>>)
    ensures r.Ok? <==> forall k :: 0 <= k < |items| ==> ItemArticles(items[k]).Ok?
  {
    FlatMapResult(items, ItemArticles)
  }

  /** The articles of publish `k` come after those of the publishes before
      it and before those of the publishes after it. */
  lemma PublishesInOrder(publishes: seq<Js>, item: Js, k: nat)
    requires FromPublishes(publishes, item).Ok? && k < |publishes|
    ensures PublishArticles(publishes[k], item).Ok?
    ensures FromPublishes(publishes[..k], item).Ok? && FromPublishes(publishes[k + 1..], item).Ok?
    ensures FromPublishes(publishes, item).value
            == FromPublishes(publishes[..k], item).value + PublishArticles(publishes[k], item).value
               + FromPublishes(publishes[k + 1..], item).value
  {
    FlatMapSplit(publishes, (p: Js) => PublishArticles(p, item), k);
  }

  /** The articles of snapshot `k` come after those of the snapshots
      before it and before those of the snapshots after it. */
  lemma ItemsInOrder(items: seq<Js>, k: nat)
    requires FromItems(items).Ok? && k < |items|
    ensures ItemArticles(items[k]).Ok? && FromItems(items[..k]).Ok? && FromItems(items[k + 1..]).Ok?
    ensures FromItems(items).value == FromItems(items[..k]).value + ItemArticles(items[k]).value + FromItems(items[k + 1..]).value
  {
    FlatMapSplit(items, ItemArticles, k);
  }

  /** Two lists of snapshots one after the other give their articles one
      after the other. */
  lemma ItemsAppend(a: seq<Js>, b: seq<Js>)
    requires FromItems(a + b).Ok?
    ensures FromItems(a).Ok? && FromItems(b).Ok?
    ensures FromItems(a + b).value == FromItems(a).value + FromItems(b).value
  {
    FlatMapAppend(a, b, ItemArticles);
  }

  /** A value as its cell is written: a string holding a comma or a quote is
      quoted, anything else is written as `join` writes it. */
  function CellOf(v: Js): (c: Cell)
    ensures v.Str? ==> c == TextCell(v.s)
    ensures !v.Str? ==> c == RawCell(JoinCell(v))
  {
    if v.Str? then TextCell(v.s) else RawCell(JoinCell(v))
  }

  function Line(a: Article): string
  {
    Join(RenderAll(seq(|Headers|, k requires 0 <= k < |Headers| => CellOf(Values(a)[k]))), ",")
  }

  function Lines(articles: seq<Article>): (r: seq<string>)
    ensures |r| == |articles|
    ensures forall k :: 0 <= k < |r| ==> r[k] == Line(articles[k])
  {
    seq(|articles|, k requires 0 <= k < |articles| => Line(articles[k]))
  }

  /** `convertToCSV(data)` */
  function ConvertToCsv(data: Js): (r: Result<string>)
    ensures !data.Arr? || |data.items| == 0 ==> r == Ok("")
    ensures data.Arr? && |data.items| > 0 ==> (r.Err? <==> FromItems(data.items).Err?)
    ensures data.Arr? && FromItems(data.items) == Ok([]) ==> r == Ok("")
    ensures data.Arr? && |data.items| > 0 && FromItems(data.items).Ok? && |FromItems(data.items).value| > 0 ==>
              r == Ok(Join([Join(Headers, ",")] + Lines(FromItems(data.items).value), "\n"))
  {
    if !data.Arr? || |data.items| == 0 then Ok("")
    else
      match FromItems(data.items)
      case Err(e) => Err(e)
      case Ok(articles) =>
        if |articles| == 0 then Ok("")
        else Ok(Join([Join(Headers, ",")] + Lines(articles), "\n"))
  }

  // -----------------------------------------------------------------------
  // Reading the output back

  /** When no line holds a line break, the output has the header line and
      exactly one line per article, in order. */
  lemma OneLinePerArticle(data: Js)
    requires data.Arr? && |data.items| > 0
    requires FromItems(data.items).Ok? && |FromItems(data.items).value| > 0
    requires forall a :: a in FromItems(data.items).value ==> '\n' !in Line(a)
    ensures var articles := FromItems(data.items).value;
            SplitLines(ConvertToCsv(data).value) == [Join(Headers, ",")] + Lines(articles)
  {
    var articles := FromItems(data.items).value;
    var xs := [Join(Headers, ",")] + Lines(articles);
    assert ConvertToCsv(data).value == Join(xs, "\n");
    assert '\n' !in Join(Headers, ",") by {
      HeadersPlain();
      JoinWithoutLineBreak(Headers, ",");
    }
    LinesWithoutLineBreak(articles);
    HeadThenLines(Join(Headers, ","), Lines(articles));
    SplitJoin(xs);
  }

  lemma LinesWithoutLineBreak(articles: seq<Article>)
    requires forall a :: a in articles ==> '\n' !in Line(a)
    ensures forall k :: 0 <= k < |Lines(articles)| ==> '\n' !in Lines(articles)[k]
  {
    forall k | 0 <= k < |Lines(articles)|
      ensures '\n' !in Lines(articles)[k]
    {
      assert articles[k] in articles;
    }
  }

  lemma HeadersPlain()
    ensures forall k :: 0 <= k < |Headers| ==> '\n' !in Headers[k] && Plain(Headers[k])
  {
    forall k | 0 <= k < |Headers|
      ensures '\n' !in Headers[k] && Plain(Headers[k])
    {
      var h := Headers[k];
      assert forall i :: 0 <= i < |h| ==> h[i] != ',' && h[i] != '"' && h[i] != '\n';
    }
  }

  /** The header line reads back as the eight field names. */
  lemma HeaderRoundTrip()
    ensures ParseFields(Join(Headers, ",")) == Headers
  {
    HeadersPlain();
    PlainLineRoundTrip(Headers);
  }

  /** A line reads back as the texts of the article's values when none of
      the values that are not strings renders with a comma or a quote:
      strings are quoted exactly when they need it. */
  lemma LineRoundTrip(a: Article)
    requires forall v :: v in Values(a) && !v.Str? ==> Plain(JoinCell(v))
    ensures var texts := seq(|Headers|, k requires 0 <= k < |Headers| => JoinCell(Values(a)[k]));
            ParseFields(Line(a)) == texts
  {
    var cells := seq(|Headers|, k requires 0 <= k < |Headers| => CellOf(Values(a)[k]));
    forall k | 0 <= k < |cells|
      ensures Readable(cells[k]) && cells[k].text == JoinCell(Values(a)[k])
    {
      assert Values(a)[k] in Values(a);
    }
    CellsRoundTrip(cells);
  }

  /** A title holding a line break but neither a comma nor a quote is
      written without quotes, so the article's line is read as two lines
      or more. */
  lemma LineBreakInTitleSplitsTheRow(a: Article)
    requires a.title.Str? && '\n' in a.title.s && Plain(a.title.s)
    ensures |SplitLines(Line(a))| >= 2
  {
    var t := a.title.s;
    var rendered := RenderAll(seq(|Headers|, k requires 0 <= k < |Headers| => CellOf(Values(a)[k])));
    assert rendered[0] == t;
    JoinCons(t, rendered[1..], ",");
    assert rendered == [t] + rendered[1..];
    var k :| 0 <= k < |t| && t[k] == '\n';
    assert Line(a)[k] == '\n';
    LineBreakSplits(Line(a));
  }
}
