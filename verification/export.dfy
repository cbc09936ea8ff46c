/** The side panel's CSV export (`convertToCSV` in the side panel): a byte
    order mark, a header line of 23 names, and one line per record. */
module Export {
  import opened JsValue
  import opened Normalize
  import opened Csv

  const Bom := "\U{FEFF}"

  const Headers: seq<string> := [
    "标题", "类型", "发布时间", "阅读量", "点赞数", "评论数", "转发数",
    "点赞率(%)", "转发率(%)", "在看数", "推阅比(%)", "推送人数",
    "成功推送", "失败推送", "是否全员推送", "状态", "失败原因",
    "赞赏金额", "划线数", "图片数量", "多图封面", "内容链接", "抓取时间"]

  const TitleColumn := 0
  const StatusColumn := 15
  const FailReasonColumn := 16

  function YesNo(v: Js): string
  {
    if Truthy(v) then "是" else "否"
  }

  /** The status column: a deleted record first, then a failure reason. */
  function StatusText(r: ArticleRecord): (t: string)
    ensures t == "已删除" <==> Truthy(r.isDeleted)
    ensures t == "异常" <==> !Truthy(r.isDeleted) && Truthy(r.failReason)
    ensures t == "正常" <==> !Truthy(r.isDeleted) && !Truthy(r.failReason)
  {
    if Truthy(r.isDeleted) then "已删除" else if Truthy(r.failReason) then "异常" else "正常"
  }

  /** A ratio as the record holds it: the number 0, or the text of
      `toFixed(2)`. */
  function RatioText(host: Host, ratio: Ratio): string
  {
    match ratio
    case Zero => "0"
    case Share(_, _) => host.fixed2(Percent(ratio))
  }

  /** `"${v.replace(/"/g, '""')}"`: only a string has `replace`. */
  function QuotedJs(v: Js): (r: Result<Cell>)
    ensures r.Ok? <==> v.Str?
    ensures r.Ok? ==> r.value == QuotedCell(v.s)
  {
    if v.Str? then Ok(QuotedCell(v.s)) else Err(TypeError)
  }

  /** The cells of one record's line, in the order of `Headers`. */
  function RowCells(host: Host, r: ArticleRecord): (cells: Result<seq<Cell>>)
    ensures cells.Ok? <==> r.title.Str? && r.failReason.Str?
    ensures cells.Ok? ==> |cells.value| == |Headers|
    ensures cells.Ok? ==> cells.value[TitleColumn] == QuotedCell(r.title.s)
    ensures cells.Ok? ==> cells.value[FailReasonColumn] == QuotedCell(r.failReason.s)
    ensures cells.Ok? ==> cells.value[StatusColumn] == RawCell(StatusText(r))
    ensures cells.Ok? ==> forall k :: 0 <= k < |Headers| && k != TitleColumn && k != FailReasonColumn ==> cells.value[k].RawCell?
  {
    match QuotedJs(r.title)
    case Err(e) => Err(e)
    case Ok(title) =>
      match QuotedJs(r.failReason)
      case Err(e) => Err(e)
      case Ok(reason) =>
        Ok([title] + MiddleCells(host, r) + [reason] + TailCells(host, r))
  }

  /** The cells between the title and the failure reason, ending with the
      status. */
  function MiddleCells(host: Host, r: ArticleRecord): (m: seq<Cell>)
    ensures |m| == StatusColumn && m[StatusColumn - 1] == RawCell(StatusText(r))
    ensures forall k :: 0 <= k < |m| ==> m[k].RawCell?
  {
    var texts := [r.kind,
                  r.publishTime,
                  IntToString(r.readNum),
                  IntToString(r.likeNum),
                  IntToString(r.commentNum),
                  IntToString(r.shareNum),
                  RatioText(host, r.likeReadRatio),
                  RatioText(host, r.shareReadRatio),
                  IntToString(r.recommendNum),
                  RatioText(host, r.recommendReadRatio),
                  JoinCell(r.totalPush),
                  JoinCell(r.successPush),
                  JoinCell(r.failPush),
                  YesNo(r.isAllPush),
                  StatusText(r)];
    assert texts[StatusColumn - 1] == StatusText(r);
    RawCells(texts)
  }

  /** The cells after the failure reason. */
  function TailCells(host: Host, r: ArticleRecord): (t: seq<Cell>)
    ensures |t| == |Headers| - FailReasonColumn - 1
    ensures forall k :: 0 <= k < |t| ==> t[k].RawCell?
  {
    RawCells([host.numberText(r.rewardMoney),
              IntToString(r.lineCount),
              JoinCell(Or(r.shareImageCount, Num(0))),
              YesNo(r.hasMultiplePictures),
              JoinCell(r.contentUrl),
              r.captureTime])
  }

  /** Texts written as they are, without quotes. */
  function RawCells(texts: seq<string>): (cells: seq<Cell>)
    ensures |cells| == |texts|
    ensures forall k :: 0 <= k < |texts| ==> cells[k] == RawCell(texts[k])
  {
    seq(|texts|, k requires 0 <= k < |texts| => RawCell(texts[k]))
  }

  /** One record's line. */
  function RowLine(host: Host, r: ArticleRecord): (line: Result<string>)
    ensures line.Ok? <==> RowCells(host, r).Ok?
    ensures line.Ok? ==> line.value == Join(RenderAll(RowCells(host, r).value), ",")
  {
    match RowCells(host, r)
    case Err(e) => Err(e)
    case Ok(cells) => Ok(Join(RenderAll(cells), ","))
  }

  /** The lines of the records, in order; the first record whose title or
      failure reason is not a string aborts the export. */
  function RowLines(host: Host, data: seq<ArticleRecord>): (r: Result<seq<string>>)
    ensures r.Ok? <==> forall k :: 0 <= k < |data| ==> RowCells(host, data[k]).Ok?
    ensures r.Ok? ==> |r.value| == |data|
    ensures r.Ok? ==> forall k :: 0 <= k < |data| ==> r.value[k] == Join(RenderAll(RowCells(host, data[k]).value), ",")
  {
    MapResult(data, (r: ArticleRecord) => RowLine(host, r))
  }

  function HeaderLine(): string
  {
    Join(Headers, ",")
  }

  /** `convertToCSV(data)` */
  function ExportCsv(host: Host, data: seq<ArticleRecord>): (r: Result<string>)
    ensures r.Ok? <==> forall k :: 0 <= k < |data| ==> data[k].title.Str? && data[k].failReason.Str?
    ensures r.Ok? ==> IsPrefix(Bom + HeaderLine(), r.value)
    ensures r.Ok? ==> r.value == Bom + Join([HeaderLine()] + RowLines(host, data).value, "\n")
  {
    match RowLines(host, data)
    case Err(e) => Err(e)
    case Ok(lines) =>
      var body := Join([HeaderLine()] + lines, "\n");
      JoinHead(HeaderLine(), lines, "\n");
      PrefixAfter(Bom, HeaderLine(), body);
      Ok(Bom + body)
  }

  lemma PrefixAfter(a: string, p: string, s: string)
    requires IsPrefix(p, s)
    ensures IsPrefix(a + p, a + s)
  {
    assert (a + s)[..|a + p|] == a + s[..|p|];
  }

  lemma JoinHead(x: string, t: seq<string>, sep: string)
    ensures IsPrefix(x, Join([x] + t, sep))
  {
    var s := Join([x] + t, sep);
    if |t| > 0 {
      JoinCons(x, t, sep);
      assert s[..|x|] == x;
    }
  }

  /** When no line holds a line break, the text after the byte order mark
      splits into the header line and exactly one line per record, in
      order. */
  lemma OneLinePerRecord(host: Host, data: seq<ArticleRecord>)
    requires ExportCsv(host, data).Ok?
    requires forall k :: 0 <= k < |data| ==> '\n' !in RowLine(host, data[k]).value
    ensures var out := ExportCsv(host, data).value;
            var lines := SplitLines(out[|Bom|..]);
            && IsPrefix(Bom, out)
            && |lines| == |data| + 1
            && lines[0] == HeaderLine()
            && forall k :: 0 <= k < |data| ==> lines[k + 1] == RowLine(host, data[k]).value
  {
    var out := ExportCsv(host, data).value;
    var rows := RowLines(host, data).value;
    var xs := [HeaderLine()] + rows;
    assert out[|Bom|..] == Join(xs, "\n");
    assert '\n' !in HeaderLine() by {
      HeadersPlain();
      JoinWithoutLineBreak(Headers, ",");
    }
    RowLinesOfRecords(host, data);
    HeadThenLines(HeaderLine(), rows);
    SplitJoin(xs);
    forall k | 0 <= k < |data|
      ensures xs[k + 1] == RowLine(host, data[k]).value
    {
      assert xs[k + 1] == rows[k];
    }
  }

  /** The row lines are the records' lines, one for one. */
  lemma RowLinesOfRecords(host: Host, data: seq<ArticleRecord>)
    requires RowLines(host, data).Ok?
    ensures var rows := RowLines(host, data).value;
            && |rows| == |data|
            && forall k :: 0 <= k < |data| ==> rows[k] == RowLine(host, data[k]).value
  {
  }

  /** The header line reads back as the 23 names. */
  lemma HeaderRoundTrip()
    ensures |Headers| == 23
    ensures ParseFields(HeaderLine()) == Headers
  {
    HeadersPlain();
    PlainLineRoundTrip(Headers);
  }

  lemma HeadersPlain()
    ensures forall k :: 0 <= k < |Headers| ==> Plain(Headers[k]) && '\n' !in Headers[k]
  {
    forall k | 0 <= k < |Headers|
      ensures Plain(Headers[k]) && '\n' !in Headers[k]
    {
      var h := Headers[k];
      assert forall i :: 0 <= i < |h| ==> h[i] != ',' && h[i] != '"' && h[i] != '\n';
    }
  }

  /** The title and the failure reason, always quoted, read back as they
      are, whatever they hold; so does the whole line when none of the
      cells written as they are holds a comma or a quote. */
  lemma RowRoundTrip(host: Host, r: ArticleRecord)
    requires RowCells(host, r).Ok?
    requires var cells := RowCells(host, r).value;
             forall k :: 0 <= k < |cells| && cells[k].RawCell? ==> Plain(cells[k].text)
    ensures var fields := ParseFields(Join(RenderAll(RowCells(host, r).value), ","));
            && |fields| == |Headers|
            && fields[TitleColumn] == r.title.s
            && fields[FailReasonColumn] == r.failReason.s
            && fields[StatusColumn] == StatusText(r)
  {
    var cells := RowCells(host, r).value;
    CellsRoundTrip(cells);
  }

  /** Numbers never need quotes: their text is a sign and digits. */
  lemma NumberCellsArePlain(i: int)
    ensures Plain(IntToString(i))
  {
    var digits := NatToString(if i < 0 then -i else i);
    assert forall k :: 0 <= k < |digits| ==> IsDigit(digits[k]);
  }
}
