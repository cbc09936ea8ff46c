/** The link to a record's statistics page (`constructDetailPageUrl`) and
    the button handler that opens it (`handleViewDetail`). */
module Detail {
  import opened JsValue
  import opened Normalize

  const DetailBase := "https://mp.weixin.qq.com/misc/appmsganalysis?action=detailpage&msgid="
  const DateParam := "&publish_date="
  const TokenParam := "&type=int&token="
  const LangSuffix := "&lang=zh_CN"

  /** `appmsgid`, falling back to `msgid`, then to the raw entry's
      `appmsgid` and `id`, then to 0: the first truthy one, so the link
      never carries a falsy id other than 0. */
  function AppmsgidParam(r: ArticleRecord): (a: Js)
    ensures Truthy(a) || a == Num(0)
    ensures r.appmsgid != 0 ==> a == Num(r.appmsgid)
    ensures r.appmsgid == 0 && Truthy(r.msgid) ==> a == r.msgid
    ensures r.appmsgid == 0 && !Truthy(r.msgid) && Truthy(GetOpt(r.raw.appmsgInfo, "appmsgid")) ==>
              a == GetOpt(r.raw.appmsgInfo, "appmsgid")
    ensures r.appmsgid == 0 && !Truthy(r.msgid) && !Truthy(GetOpt(r.raw.appmsgInfo, "appmsgid")) ==>
              a == (if Truthy(GetOpt(r.raw.appmsgInfo, "id")) then GetOpt(r.raw.appmsgInfo, "id") else Num(0))
  {
    if r.appmsgid != 0 then Num(r.appmsgid)
    else
      var info := r.raw.appmsgInfo;
      Or(Or(Or(r.msgid, GetOpt(info, "appmsgid")), GetOpt(info, "id")), Num(0))
  }

  /** `publishDate`, falling back to the formatted publish timestamp, the
      item's `view.publishDate`, then the formatted send time; the record's
      own value stays when none of them is truthy. */
  function PublishDateParam(host: Host, r: ArticleRecord): (p: Js)
    ensures Truthy(r.publishDate) ==> p == r.publishDate
    ensures !Truthy(r.publishDate) && Truthy(r.publishTimestamp) ==>
              p == Str(host.formatDateForUrl(r.publishTimestamp))
    ensures var viewDate := GetOpt(GetOpt(r.raw.publishItem, "view"), "publishDate");
            !Truthy(r.publishDate) && !Truthy(r.publishTimestamp) && Truthy(viewDate) ==> p == viewDate
    ensures var viewDate := GetOpt(GetOpt(r.raw.publishItem, "view"), "publishDate");
            var sentTime := GetOpt(r.raw.sentInfo, "time");
            !Truthy(r.publishDate) && !Truthy(r.publishTimestamp) && !Truthy(viewDate) ==>
              p == (if Truthy(sentTime) then Str(host.formatDateForUrl(sentTime)) else r.publishDate)
  {
    if Truthy(r.publishDate) then r.publishDate
    else if Truthy(r.publishTimestamp) then Str(host.formatDateForUrl(r.publishTimestamp))
    else
      var viewDate := GetOpt(GetOpt(r.raw.publishItem, "view"), "publishDate");
      var sentTime := GetOpt(r.raw.sentInfo, "time");
      if Truthy(viewDate) then viewDate
      else if Truthy(sentTime) then Str(host.formatDateForUrl(sentTime))
      else r.publishDate
  }

  /** `record.itemidx || 1` */
  function ItemIdxParam(r: ArticleRecord): (i: int)
    ensures i != 0
    ensures r.itemidx != 0 ==> i == r.itemidx
  {
    if r.itemidx != 0 then r.itemidx else 1
  }

  /** `${appmsgid}_${itemidx}` */
  function MsgidParam(app: Js, itemidx: int): string
  {
    JsString(app) + "_" + IntToString(itemidx)
  }

  /** The names `constructDetailPageUrl` finds missing after its fallbacks. */
  function MissingAfterFallbacks(host: Host, r: ArticleRecord): (names: seq<string>)
    ensures "appmsgid" in names <==> !Truthy(AppmsgidParam(r))
    ensures "publishDate" in names <==> !Truthy(PublishDateParam(host, r))
    ensures "token" in names <==> !Truthy(r.token)
  {
    (if Truthy(AppmsgidParam(r)) then [] else ["appmsgid"])
    + (if Truthy(PublishDateParam(host, r)) then [] else ["publishDate"])
    + (if Truthy(r.token) then [] else ["token"])
  }

  /** `constructDetailPageUrl(record)`: no link when a parameter is still
      missing after the fallbacks; otherwise the link whose `msgid`
      parameter is the article id and its position, followed by the
      publish date, then the token, and ending with the language. */
  function DetailUrl(host: Host, r: ArticleRecord): (u: Option<string>)
    ensures u.None? <==> |MissingAfterFallbacks(host, r)| > 0
    ensures u.None? <==> !Truthy(AppmsgidParam(r)) || !Truthy(PublishDateParam(host, r)) || !Truthy(r.token)
    ensures u.Some? ==> IsPrefix(DetailBase + MsgidParam(AppmsgidParam(r), ItemIdxParam(r)) + DateParam
                                 + JsString(PublishDateParam(host, r)), u.value)
    ensures u.Some? ==> IsSuffix(TokenParam + JsString(r.token) + LangSuffix, u.value)
    ensures u.Some? ==> |u.value| == |DetailBase + MsgidParam(AppmsgidParam(r), ItemIdxParam(r)) + DateParam
                                      + JsString(PublishDateParam(host, r))|
                                    + |TokenParam + JsString(r.token) + LangSuffix|
  {
    if |MissingAfterFallbacks(host, r)| > 0 then None
    else
      var head := DetailBase + MsgidParam(AppmsgidParam(r), ItemIdxParam(r)) + DateParam
                  + JsString(PublishDateParam(host, r));
      var tail := TokenParam + JsString(r.token) + LangSuffix;
      var u := head + tail;
      assert u[..|head|] == head;
      assert u[|u| - |tail|..] == tail;
      Some(u)
  }

  /** A record made from a payload carries a numeric article id; with a
      publish date and a token it always gets a link, whose `msgid` is that
      id in decimal, an underscore and the position (1 when none). */
  lemma RecordLinkUsesItsIds(host: Host, r: ArticleRecord)
    requires r.appmsgid != 0 && Truthy(r.publishDate) && Truthy(r.token)
    ensures DetailUrl(host, r).Some?
    ensures IsPrefix(DetailBase + IntToString(r.appmsgid) + "_" + IntToString(ItemIdxParam(r)), DetailUrl(host, r).value)
  {
    assert AppmsgidParam(r) == Num(r.appmsgid);
    var u := DetailUrl(host, r).value;
    var x := IntToString(r.appmsgid);
    var y := IntToString(ItemIdxParam(r));
    assert MsgidParam(AppmsgidParam(r), ItemIdxParam(r)) == x + "_" + y;
    LinkPrefix(DetailBase, x + "_" + y, DateParam, JsString(PublishDateParam(host, r)), u);
    Regroup(DetailBase, x, "_", y);
  }

  lemma LinkPrefix(base: string, m: string, p: string, d: string, s: string)
    requires IsPrefix(base + m + p + d, s)
    ensures IsPrefix(base + m, s)
  {
    assert base + m + p + d == (base + m) + (p + d);
    PrefixOfPrefix(base + m, p + d, s);
  }

  lemma Regroup(base: string, x: string, y: string, z: string)
    ensures base + (x + y + z) == base + x + y + z
  {
  }

  /** What a click on a record's detail button ends in. */
  datatype DetailOutcome = OpenTab(url: string) | ReportMissing(names: seq<string>)

  /** The names `handleViewDetail` reports: it looks at the record's own
      fields, before any fallback. */
  function ReportedMissing(r: ArticleRecord): (names: seq<string>)
    ensures "appmsgid" in names <==> r.appmsgid == 0
    ensures "publishDate" in names <==> !Truthy(r.publishDate)
    ensures "token" in names <==> !Truthy(r.token)
  {
    (if r.appmsgid != 0 then [] else ["appmsgid"])
    + (if Truthy(r.publishDate) then [] else ["publishDate"])
    + (if Truthy(r.token) then [] else ["token"])
  }

  /** A record without a token takes the token the page reports
      (`pageToken`, undefined when the page cannot answer). */
  function WithPageToken(r: ArticleRecord, pageToken: Js): (r': ArticleRecord)
    ensures r' == r.(token := r'.token)
    ensures Truthy(r'.token) <==> Truthy(r.token) || Truthy(pageToken)
  {
    if !Truthy(r.token) && Truthy(pageToken) then r.(token := pageToken) else r
  }

  /** `handleViewDetail` */
  function ViewDetail(host: Host, r: ArticleRecord, pageToken: Js): (o: DetailOutcome)
    ensures var r' := WithPageToken(r, pageToken);
            && (o.OpenTab? <==> DetailUrl(host, r').Some?)
            && (o.OpenTab? ==> o.url == DetailUrl(host, r').value)
  {
    var r' := WithPageToken(r, pageToken);
    match DetailUrl(host, r')
    case Some(u) => OpenTab(u)
    case None => ReportMissing(ReportedMissing(r'))
  }

  /** A parameter missing after the fallbacks was missing before them, so
      when no link can be built the message names at least one parameter,
      and every parameter still missing is among those named. */
  lemma MissingIsReported(host: Host, r: ArticleRecord, pageToken: Js)
    ensures var o := ViewDetail(host, r, pageToken);
            o.ReportMissing? ==>
              && |o.names| > 0
              && (forall x :: x in MissingAfterFallbacks(host, WithPageToken(r, pageToken)) ==> x in o.names)
  {
  }
}
