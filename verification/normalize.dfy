/** `processWeixinData` and `getContentType` of the side panel: flattening the
    platform's publish list into one flat record per article. */
module Normalize {
  import opened JsValue

  /** The calls the side panel makes into code this model does not include.
      `parseJson` is `JSON.parse` (None when it throws); `decodeEntities` is the
      textarea round trip of `decodeHtmlEntities` on a string;
      `formatTimestamp` and `formatDateForUrl` are the locale and calendar
      formatting of a truthy timestamp; `parseFloatOr0` is
      `parseFloat(v) || 0`; `pageToken` is `extractTokenFromCurrentPage()`;
      `nowIso` is `new Date().toISOString()` at the time of the call;
      `fixed2` is `toFixed(2)` of a percentage and `numberText` is `String`
      of a fractional number. */
  datatype Host = Host(
    parseJson: string -> Option<Js>,
    decodeEntities: string -> string,
    formatTimestamp: Js -> string,
    formatDateForUrl: Js -> string,
    parseFloatOr0: Js -> real,
    pageToken: Js,
    nowIso: string,
    fixed2: real -> string,
    numberText: real -> string)

  /** `decodeHtmlEntities(v)`: strings are decoded, anything else is returned as is. */
  function DecodeEntities(host: Host, v: Js): (r: Js)
    ensures !v.Str? ==> r == v
    ensures v.Str? ==> r.Str?
  {
    if v.Str? then Str(host.decodeEntities(v.s)) else v
  }

  // ---------------------------------------------------------------------
  // Content types

  const ArticleKind: string := "文章"
  const PictureKind: string := "图文"
  const VideoKind: string := "视频"
  const AudioKind: string := "音频"

  predicate IsNamedKind(s: string)
  {
    s == ArticleKind || s == PictureKind || s == VideoKind || s == AudioKind
  }

  /** `getContentType(type)`: a strict switch over four numeric codes. */
  function ContentType(t: Js): (r: string)
    ensures IsNamedKind(r) <==> t in {Num(9), Num(10002), Num(10), Num(63)}
    ensures !IsNamedKind(r) ==> IsPrefix("其他 (", r)
  {
    if t == Num(9) then ArticleKind
    else if t == Num(10002) then PictureKind
    else if t == Num(10) then VideoKind
    else if t == Num(63) then AudioKind
    else
      var r := "其他 (" + JsString(t) + ")";
      assert |r| > 4;
      assert r[..4] == "其他 (";
      r
  }

  /** The four named codes map to four different names. */
  lemma ContentTypeNamesDistinct()
    ensures ContentType(Num(9)) == ArticleKind && ContentType(Num(10002)) == PictureKind
    ensures ContentType(Num(10)) == VideoKind && ContentType(Num(63)) == AudioKind
    ensures |{ArticleKind, PictureKind, VideoKind, AudioKind}| == 4
  {
  }

  // ---------------------------------------------------------------------
  // Records

  /** `likeNum / readNum * 100` and its siblings: the number 0 when there are
      no reads, otherwise the share of `count` in `readCount`, rendered as a
      percentage with `toFixed(2)`. */
  datatype Ratio = Zero | Share(count: int, readCount: int)

  function RatioOf(count: int, readCount: int): (r: Ratio)
    ensures r.Zero? <==> readCount <= 0
    ensures r.Share? ==> r.count == count && r.readCount == readCount
  {
    if readCount > 0 then Share(count, readCount) else Zero
  }

  /** The exact percentage a ratio stands for. */
  function Percent(r: Ratio): (v: real)
    ensures r.Zero? ==> v == 0.0
    ensures r.Share? && r.readCount > 0 ==> v * (r.readCount as real) == 100.0 * (r.count as real)
  {
    match r
    case Zero => 0.0
    case Share(c, n) => if n > 0 then c as real * 100.0 / n as real else 0.0
  }

  /** The `rawData` kept on every record for building the detail page link. */
  datatype RawRefs = RawRefs(sentInfo: Js, sentStatus: Js, sentResult: Js, appmsgInfo: Js, publishItem: Js)

  /** One flat record, the unit the dashboard stores, sorts and exports. */
  datatype ArticleRecord = ArticleRecord(
    id: string,
    msgid: Js,
    title: Js,
    kind: string,
    contentUrl: Js,
    publishTime: string,
    sendTime: string,
    publishDate: Js,
    publishTimestamp: Js,
    readNum: int,
    likeNum: int,
    commentNum: int,
    shareNum: int,
    reprintNum: int,
    recommendNum: int,
    rewardMoney: real,
    lineCount: int,
    totalPush: Js,
    successPush: Js,
    failPush: Js,
    isAllPush: Js,
    isDeleted: Js,
    msgStatus: Js,
    failReason: Js,
    cover: Js,
    digest: Js,
    modifyStatus: Js,
    shareImageCount: Js,
    hasMultiplePictures: Js,
    appmsgid: int,
    itemidx: int,
    token: Js,
    raw: RawRefs,
    likeReadRatio: Ratio,
    shareReadRatio: Ratio,
    recommendReadRatio: Ratio,
    captureTime: string)

  /** What every article of one publish item shares: the (possibly decoded)
      item, its content type, and its send info, send status and send result
      (each `{}` when missing). */
  datatype Batch = Batch(item: Js, kind: string, sentInfo: Js, sentStatus: Js, sentResult: Js)

  /** `${key}_${j}`, where `key` is `msgid || index`. */
  function RecordId(key: Js, j: nat): string
  {
    JsString(key) + "_" + NatToString(j)
  }

  /** The first of two `parseInt(...) || ...` fallbacks that is not 0. */
  function FirstNonZero(a: int, b: int): (r: int)
    ensures r == 0 <==> a == 0 && b == 0
    ensures a != 0 ==> r == a
    ensures a == 0 ==> r == b
  {
    if a != 0 then a else b
  }

  /** The record built for `appmsg`, the `j`-th article of publish item
      number `index`.  Reading `appmsg.title` throws when the article entry
      is `undefined` or `null`; nothing else in the record can throw. */
  function MakeRecord(host: Host, b: Batch, appmsg: Js, index: nat, j: nat, token: Js): (r: Result<ArticleRecord>)
    ensures r.Err? <==> appmsg.Undef? || appmsg.Null?
    ensures r.Ok? ==> r.value.raw.appmsgInfo == appmsg && r.value.raw.publishItem == b.item
  {
    match Get(appmsg, "title")
    case Err(e) => Err(e)
    case Ok(title) =>
      var p := b.item;
      var sendTime := GetOpt(GetOpt(appmsg, "line_info"), "send_time");
      var sentTime := Field(b.sentInfo, "time");
      var readNum := ParseIntOr0(Field(appmsg, "read_num"));
      var likeNum := FirstNonZero(ParseIntOr0(Field(appmsg, "old_like_num")), ParseIntOr0(Field(appmsg, "like_num")));
      var shareNum := ParseIntOr0(Field(appmsg, "share_num"));
      var recommendNum := ParseIntOr0(Field(appmsg, "like_num"));
      var shareImages := Field(appmsg, "share_imageinfo");
      Ok(ArticleRecord(
        id := RecordId(Or(Field(p, "msgid"), Num(index)), j),
        msgid := Or(Field(p, "msgid"), Num(0)),
        title := DecodeEntities(host, Or(title, Str("无标题"))),
        kind := b.kind,
        contentUrl := Or(Field(appmsg, "content_url"), Str("")),
        publishTime := if Truthy(sendTime) then host.formatTimestamp(sendTime)
                       else if Truthy(sentTime) then host.formatTimestamp(sentTime)
                       else "",
        sendTime := if Truthy(sendTime) then host.formatTimestamp(sendTime) else "",
        publishDate := if Truthy(sendTime) then Str(host.formatDateForUrl(sendTime))
                       else Or(GetOpt(GetOpt(p, "view"), "publishDate"),
                               if Truthy(sentTime) then Str(host.formatDateForUrl(sentTime)) else Str("")),
        publishTimestamp := Or(Or(sendTime, sentTime), Num(0)),
        readNum := readNum,
        likeNum := likeNum,
        commentNum := ParseIntOr0(Field(appmsg, "comment_num")),
        shareNum := shareNum,
        reprintNum := ParseIntOr0(Field(appmsg, "reprint_num")),
        recommendNum := recommendNum,
        rewardMoney := host.parseFloatOr0(Field(appmsg, "reward_money")),
        lineCount := ParseIntOr0(GetOpt(GetOpt(appmsg, "line_info"), "line_count")),
        totalPush := Or(Field(b.sentStatus, "total"), Num(0)),
        successPush := Or(Field(b.sentStatus, "succ"), Num(0)),
        failPush := Or(Field(b.sentStatus, "fail"), Num(0)),
        isAllPush := Or(Field(b.sentInfo, "is_send_all"), Bool(false)),
        isDeleted := Or(Field(appmsg, "is_deleted"), Bool(false)),
        msgStatus := Or(Field(b.sentResult, "msg_status"), Num(0)),
        failReason := Or(Or(Field(b.sentResult, "msg_fail_reason"), Field(b.sentResult, "refuse_reason")), Str("")),
        cover := Or(Field(appmsg, "cover"), Str("")),
        digest := DecodeEntities(host, Or(Field(appmsg, "digest"), Str(""))),
        modifyStatus := Or(Field(appmsg, "modify_status"), Num(0)),
        shareImageCount := if Truthy(shareImages) then Field(shareImages, "length") else Num(0),
        hasMultiplePictures := Or(Field(appmsg, "multi_picture_cover"), Num(0)),
        appmsgid := FirstNonZero(ParseIntOr0(Field(appmsg, "appmsgid")), ParseIntOr0(Field(appmsg, "id"))),
        itemidx := FirstNonZero(ParseIntOr0(Field(appmsg, "itemidx")), 1),
        token := Or(token, host.pageToken),
        raw := RawRefs(b.sentInfo, b.sentStatus, b.sentResult, appmsg, p),
        likeReadRatio := RatioOf(likeNum, readNum),
        shareReadRatio := RatioOf(shareNum, readNum),
        recommendReadRatio := RatioOf(recommendNum, readNum),
        captureTime := host.nowIso))
  }

  /** The id pairs the item's key with the article's position. */
  lemma RecordIdentity(host: Host, b: Batch, appmsg: Js, index: nat, j: nat, token: Js)
    requires MakeRecord(host, b, appmsg, index, j, token).Ok?
    ensures var r := MakeRecord(host, b, appmsg, index, j, token).value;
            var msgid := Field(b.item, "msgid");
            && r.id == RecordId(if Truthy(msgid) then msgid else Num(index), j)
            && (Truthy(r.msgid) <==> Truthy(msgid))
            && (Truthy(msgid) ==> r.msgid == msgid)
            && (Truthy(token) ==> r.token == token)
  {
  }

  /** The batch-level fields come from the publish item alone: two
      articles of one batch, at any positions and with any token, get the
      same type, push counts, push flag, status and failure reason.  The
      failure reason is the first truthy of `msg_fail_reason` and
      `refuse_reason`, and '' when neither is. */
  lemma RecordBatchFields(host: Host, b: Batch, appmsg: Js, index: nat, j: nat, token: Js,
                          appmsg': Js, index': nat, j': nat, token': Js)
    requires MakeRecord(host, b, appmsg, index, j, token).Ok?
    requires MakeRecord(host, b, appmsg', index', j', token').Ok?
    ensures var r := MakeRecord(host, b, appmsg, index, j, token).value;
            var r' := MakeRecord(host, b, appmsg', index', j', token').value;
            && r.kind == r'.kind
            && r.totalPush == r'.totalPush && r.successPush == r'.successPush && r.failPush == r'.failPush
            && r.isAllPush == r'.isAllPush && r.msgStatus == r'.msgStatus && r.failReason == r'.failReason
            && r.raw.publishItem == r'.raw.publishItem
    ensures var r := MakeRecord(host, b, appmsg, index, j, token).value;
            var failed := Field(b.sentResult, "msg_fail_reason");
            var refused := Field(b.sentResult, "refuse_reason");
            && (Truthy(r.failReason) <==> Truthy(failed) || Truthy(refused))
            && (Truthy(failed) ==> r.failReason == failed)
            && (!Truthy(failed) && Truthy(refused) ==> r.failReason == refused)
            && (!Truthy(r.failReason) ==> r.failReason == Str(""))
  {
    var r := MakeRecord(host, b, appmsg, index, j, token).value;
    var r' := MakeRecord(host, b, appmsg', index', j', token').value;
    BatchPartOfRecord(host, b, appmsg, index, j, token);
    BatchPartOfRecord(host, b, appmsg', index', j', token');
    SameBatchPart(r, r', BatchPart(r'));
    assert r.failReason == BatchPart(r).failReason;
    FailReasonChoice(b.sentResult, r.failReason);
  }

  lemma SameBatchPart(r: ArticleRecord, r': ArticleRecord, f: BatchFields)
    requires BatchPart(r) == f && BatchPart(r') == f
    ensures && r.kind == r'.kind
            && r.totalPush == r'.totalPush && r.successPush == r'.successPush && r.failPush == r'.failPush
            && r.isAllPush == r'.isAllPush && r.msgStatus == r'.msgStatus && r.failReason == r'.failReason
            && r.raw.publishItem == r'.raw.publishItem
  {
  }

  /** `msg_fail_reason || refuse_reason || ''` */
  lemma FailReasonChoice(res: Js, v: Js)
    requires v == Or(Or(Field(res, "msg_fail_reason"), Field(res, "refuse_reason")), Str(""))
    ensures var failed := Field(res, "msg_fail_reason");
            var refused := Field(res, "refuse_reason");
            && (Truthy(v) <==> Truthy(failed) || Truthy(refused))
            && (Truthy(failed) ==> v == failed)
            && (!Truthy(failed) && Truthy(refused) ==> v == refused)
            && (!Truthy(v) ==> v == Str(""))
  {
  }

  /** The fields of a record that belong to its publish item. */
  datatype BatchFields = BatchFields(kind: string, totalPush: Js, successPush: Js, failPush: Js,
                                     isAllPush: Js, msgStatus: Js, failReason: Js, publishItem: Js)

  function BatchPart(r: ArticleRecord): BatchFields
  {
    BatchFields(r.kind, r.totalPush, r.successPush, r.failPush, r.isAllPush, r.msgStatus, r.failReason,
                r.raw.publishItem)
  }

  lemma BatchPartOfRecord(host: Host, b: Batch, appmsg: Js, index: nat, j: nat, token: Js)
    requires MakeRecord(host, b, appmsg, index, j, token).Ok?
    ensures BatchPart(MakeRecord(host, b, appmsg, index, j, token).value) ==
            BatchFields(b.kind, Or(Field(b.sentStatus, "total"), Num(0)), Or(Field(b.sentStatus, "succ"), Num(0)),
                        Or(Field(b.sentStatus, "fail"), Num(0)), Or(Field(b.sentInfo, "is_send_all"), Bool(false)),
                        Or(Field(b.sentResult, "msg_status"), Num(0)),
                        Or(Or(Field(b.sentResult, "msg_fail_reason"), Field(b.sentResult, "refuse_reason")), Str("")),
                        b.item)
  {
  }

  /** The article's own send time wins over the item's, and the timestamp
      is 0 only when neither is set. */
  lemma RecordTimePrecedence(host: Host, b: Batch, appmsg: Js, index: nat, j: nat, token: Js)
    requires MakeRecord(host, b, appmsg, index, j, token).Ok?
    ensures var r := MakeRecord(host, b, appmsg, index, j, token).value;
            var sendTime := GetOpt(GetOpt(appmsg, "line_info"), "send_time");
            var sentTime := Field(b.sentInfo, "time");
            && (Truthy(sendTime) ==> r.publishTimestamp == sendTime
                                     && r.publishDate == Str(host.formatDateForUrl(sendTime)))
            && (!Truthy(sendTime) && Truthy(sentTime) ==> r.publishTimestamp == sentTime)
            && (!Truthy(r.publishTimestamp) <==> !Truthy(sendTime) && !Truthy(sentTime))
            && (!Truthy(r.publishTimestamp) ==> r.publishTimestamp == Num(0) && r.publishTime == "")
  {
  }

  /** What the counters hold for the values the platform sends: a number
      field is taken as it is, a missing or otherwise falsy field counts 0;
      a non-zero `old_like_num` wins over `like_num` for the likes, and
      `like_num` alone is the recommend count; a numeric `appmsgid` wins
      over `id`; the position within the item is the numeric `itemidx`, or
      1 when it is missing. */
  lemma RecordCounters(host: Host, b: Batch, appmsg: Js, index: nat, j: nat, token: Js)
    requires MakeRecord(host, b, appmsg, index, j, token).Ok?
    ensures var r := MakeRecord(host, b, appmsg, index, j, token).value;
            var read := Field(appmsg, "read_num");
            && (read.Num? ==> r.readNum == read.n)
            && (!Truthy(read) ==> r.readNum == 0)
    ensures var r := MakeRecord(host, b, appmsg, index, j, token).value;
            var oldLike := Field(appmsg, "old_like_num");
            var like := Field(appmsg, "like_num");
            && (like.Num? ==> r.recommendNum == like.n)
            && (!Truthy(like) ==> r.recommendNum == 0)
            && (oldLike.Num? && oldLike.n != 0 ==> r.likeNum == oldLike.n)
            && (!Truthy(oldLike) && like.Num? ==> r.likeNum == like.n)
            && (!Truthy(oldLike) && !Truthy(like) ==> r.likeNum == 0)
    ensures var r := MakeRecord(host, b, appmsg, index, j, token).value;
            var appmsgid := Field(appmsg, "appmsgid");
            var id := Field(appmsg, "id");
            && (appmsgid.Num? && appmsgid.n != 0 ==> r.appmsgid == appmsgid.n)
            && (!Truthy(appmsgid) && id.Num? ==> r.appmsgid == id.n)
    ensures var r := MakeRecord(host, b, appmsg, index, j, token).value;
            var itemidx := Field(appmsg, "itemidx");
            && (itemidx.Num? && itemidx.n != 0 ==> r.itemidx == itemidx.n)
            && (!Truthy(itemidx) ==> r.itemidx == 1)
            && r.itemidx != 0
  {
    CountersOfRecord(host, b, appmsg, index, j, token);
    CounterOf(Field(appmsg, "read_num"));
    CounterOf(Field(appmsg, "old_like_num"));
    CounterOf(Field(appmsg, "like_num"));
    CounterOf(Field(appmsg, "appmsgid"));
    CounterOf(Field(appmsg, "id"));
    CounterOf(Field(appmsg, "itemidx"));
  }

  /** The counter fields of a record, in terms of the parsed fields. */
  lemma CountersOfRecord(host: Host, b: Batch, appmsg: Js, index: nat, j: nat, token: Js)
    requires MakeRecord(host, b, appmsg, index, j, token).Ok?
    ensures var r := MakeRecord(host, b, appmsg, index, j, token).value;
            && r.readNum == ParseIntOr0(Field(appmsg, "read_num"))
            && r.recommendNum == ParseIntOr0(Field(appmsg, "like_num"))
            && r.likeNum == FirstNonZero(ParseIntOr0(Field(appmsg, "old_like_num")), ParseIntOr0(Field(appmsg, "like_num")))
            && r.appmsgid == FirstNonZero(ParseIntOr0(Field(appmsg, "appmsgid")), ParseIntOr0(Field(appmsg, "id")))
            && r.itemidx == FirstNonZero(ParseIntOr0(Field(appmsg, "itemidx")), 1)
  {
  }

  /** `parseInt(v) || 0` of a number is the number, and of a falsy value 0. */
  lemma CounterOf(v: Js)
    ensures v.Num? ==> ParseIntOr0(v) == v.n
    ensures !Truthy(v) ==> ParseIntOr0(v) == 0
  {
    if v.Num? {
      ParseIntOfNum(v.n);
    }
    if !Truthy(v) {
      ParseIntOr0OfFalsy(v);
    }
  }

  /** The three ratios are 0 without reads and otherwise the count's share
      of the reads, in percent. */
  lemma RecordRatios(host: Host, b: Batch, appmsg: Js, index: nat, j: nat, token: Js)
    requires MakeRecord(host, b, appmsg, index, j, token).Ok?
    ensures var r := MakeRecord(host, b, appmsg, index, j, token).value;
            && (r.likeReadRatio.Zero? <==> r.readNum <= 0)
            && (r.shareReadRatio.Zero? <==> r.readNum <= 0)
            && (r.recommendReadRatio.Zero? <==> r.readNum <= 0)
            && (r.likeReadRatio.Share? ==> r.likeReadRatio == Share(r.likeNum, r.readNum))
            && (r.shareReadRatio.Share? ==> r.shareReadRatio == Share(r.shareNum, r.readNum))
            && (r.recommendReadRatio.Share? ==> r.recommendReadRatio == Share(r.recommendNum, r.readNum))
  {
    var r := MakeRecord(host, b, appmsg, index, j, token).value;
    assert r.likeReadRatio == RatioOf(r.likeNum, r.readNum);
    assert r.shareReadRatio == RatioOf(r.shareNum, r.readNum);
    assert r.recommendReadRatio == RatioOf(r.recommendNum, r.readNum);
  }

  // ---------------------------------------------------------------------
  // Publish items

  /** The records of one publish item, and whether its processing threw.
      The records pushed before a throw stay in the output. */
  datatype ItemOutcome = ItemOutcome(records: seq<ArticleRecord>, failed: bool)

  /** The `forEach` over an item's articles inside one try block: the records
      built before the first throw, and whether a throw happened.  Building a
      record has no side effects, so building them all first and keeping the
      prefix is the same as building them one by one. */
  function UntilFirstError(results: seq<Result<ArticleRecord>>): (out: ItemOutcome)
    ensures |out.records| <= |results|
    ensures forall k :: 0 <= k < |out.records| ==> results[k] == Ok(out.records[k])
    ensures out.failed <==> exists k :: 0 <= k < |results| && results[k].Err?
    ensures !out.failed ==> |out.records| == |results|
    ensures out.failed ==> |out.records| < |results| && results[|out.records|].Err?
  {
    if |results| == 0 then ItemOutcome([], false)
    else
      match results[0]
      case Err(_) => ItemOutcome([], true)
      case Ok(r) =>
        var rest := UntilFirstError(results[1..]);
        assert forall k :: 1 <= k < |results| ==> results[k] == results[1..][k - 1];
        ItemOutcome([r] + rest.records, rest.failed)
  }

  /** The record results of every article of an item, in order. */
  function ArticleResults(host: Host, b: Batch, appmsgs: seq<Js>, index: nat, token: Js): (rs: seq<Result<ArticleRecord>>)
    ensures |rs| == |appmsgs|
    ensures forall k :: 0 <= k < |rs| ==> rs[k] == MakeRecord(host, b, appmsgs[k], index, k, token)
  {
    seq(|appmsgs|, k requires 0 <= k < |appmsgs| => MakeRecord(host, b, appmsgs[k], index, k, token))
  }

  /** The item after the optional `publish_info` decoding: a string
      `publish_info` is entity-decoded and parsed, and a parse failure falls
      back to the item itself.  Reading `item.publish_info` throws when the
      item is `undefined` or `null`. */
  function DecodeItem(host: Host, item: Js): (r: Result<Js>)
    ensures r.Err? <==> Nullish(item)
    ensures r.Ok? && !Field(item, "publish_info").Str? ==> r.value == item
  {
    match Get(item, "publish_info")
    case Err(e) => Err(e)
    case Ok(info) =>
      if Truthy(info) && info.Str? then
        match host.parseJson(host.decodeEntities(info.s))
        case Some(parsed) => Ok(parsed)
        case None => Ok(item)
      else Ok(item)
  }

  /** The batch-level fields of a decoded item; reading `type` throws when
      the decoded item is `undefined` or `null`. */
  function BatchOf(p: Js): (r: Result<Batch>)
    ensures r.Err? <==> Nullish(p)
    ensures r.Ok? ==> r.value.item == p && Truthy(r.value.sentInfo) && Truthy(r.value.sentStatus)
                      && Truthy(r.value.sentResult)
  {
    match Get(p, "type")
    case Err(e) => Err(e)
    case Ok(t) =>
      Ok(Batch(p, ContentType(t),
               Or(Field(p, "sent_info"), Obj(map[])),
               Or(Field(p, "sent_status"), Obj(map[])),
               Or(Field(p, "sent_result"), Obj(map[]))))
  }

  /** The `appmsg_info` list of a decoded item, `[]` when missing. */
  function AppmsgList(p: Js): Js
  {
    Or(Field(p, "appmsg_info"), Arr([]))
  }

  /** The body of the `forEach` over the publish list, inside its try/catch. */
  function ProcessItem(host: Host, item: Js, index: nat, token: Js): (out: ItemOutcome)
    ensures Nullish(item) ==> out == ItemOutcome([], true)
  {
    match DecodeItem(host, item)
    case Err(_) => ItemOutcome([], true)
    case Ok(p) =>
      match BatchOf(p)
      case Err(_) => ItemOutcome([], true)
      case Ok(b) =>
        var list := AppmsgList(p);
        if list.Arr? then UntilFirstError(ArticleResults(host, b, list.items, index, token))
        else ItemOutcome([], true)
  }

  /** `xs.forEach((x, k) => out.push(...f(x, k)))` from position `i` on,
      where `f` cannot throw. */
  function ConcatMapFrom<T, U>(xs: seq<T>, f: (T, nat) -> seq<U>, i: nat): seq<U>
    requires i <= |xs|
    decreases |xs| - i
  {
    if i == |xs| then [] else f(xs[i], i) + ConcatMapFrom(xs, f, i + 1)
  }

  /** The output for element `k` sits between the output for the elements
      before it and the output for those after it, each element at its own
      position. */
  lemma {:induction false} ConcatMapFromSplit<T, U>(xs: seq<T>, f: (T, nat) -> seq<U>, i: nat, k: nat)
    requires i <= k < |xs|
    ensures ConcatMapFrom(xs, f, i) == ConcatMapFrom(xs[..k], f, i) + f(xs[k], k) + ConcatMapFrom(xs, f, k + 1)
    decreases k - i
  {
    if i < k {
      ConcatMapFromSplit(xs, f, i + 1, k);
      assert xs[..k][i] == xs[i];
    }
  }

  /** The forEach callback: the records one publish item yields at its
      position; a throw inside it is caught and yields what was pushed. */
  function ItemRecords(host: Host, token: Js): (Js, nat) -> seq<ArticleRecord>
  {
    (item: Js, index: nat) => ProcessItem(host, item, index, token).records
  }

  /** The records of the publish items from position `i` on. */
  function ItemsFrom(host: Host, items: seq<Js>, token: Js, i: nat): seq<ArticleRecord>
    requires i <= |items|
  {
    ConcatMapFrom(items, ItemRecords(host, token), i)
  }

  // ---------------------------------------------------------------------
  // The whole payload

  /** Where the publish list comes from: reading a property of a nullish
      payload throws; an unparsable string payload yields `[]` early. */
  datatype ListSource = Throws | Unparsable | Chosen(list: Js)

  function SelectPublishList(host: Host, raw: Js): (r: ListSource)
    ensures r == Throws <==> Nullish(raw)
    ensures raw.Obj? && "publish_list" in raw.fields && raw.fields["publish_list"].Arr? ==>
              r == Chosen(raw.fields["publish_list"])
    ensures raw.Str? && host.parseJson(raw.s).None? ==> r == Unparsable
    ensures r == Unparsable ==> raw.Str?
    ensures !raw.Str? && !raw.Obj? && !Nullish(raw) ==> r == Chosen(Arr([]))
    ensures raw.Obj? && !(Truthy(Field(raw, "publish_list")) && Field(raw, "publish_list").Arr?)
            && Truthy(Field(raw, "cgiData")) && Truthy(Field(Field(raw, "cgiData"), "publish_list"))
            ==> r == Chosen(Field(Field(raw, "cgiData"), "publish_list"))
    ensures raw.Obj? && !(Truthy(Field(raw, "publish_list")) && Field(raw, "publish_list").Arr?)
            && !(Truthy(Field(raw, "cgiData")) && Truthy(Field(Field(raw, "cgiData"), "publish_list")))
            ==> r == Chosen(Arr([]))
    ensures raw.Str? && host.parseJson(raw.s).Some? && Nullish(host.parseJson(raw.s).value) ==> r == Unparsable
    ensures raw.Str? && host.parseJson(raw.s).Some? && !Nullish(host.parseJson(raw.s).value)
            ==> r == Chosen(Or(Field(host.parseJson(raw.s).value, "publish_list"), Arr([])))
  {
    match Get(raw, "publish_list")
    case Err(_) => Throws
    case Ok(own) =>
      var cgi := Field(raw, "cgiData");
      if Truthy(own) && own.Arr? then Chosen(own)
      else if Truthy(cgi) && Truthy(Field(cgi, "publish_list")) then Chosen(Field(cgi, "publish_list"))
      else if raw.Str? then
        match host.parseJson(raw.s)
        case None => Unparsable
        case Some(parsed) =>
          match Get(parsed, "publish_list")
          case Err(_) => Unparsable
          case Ok(l) => Chosen(Or(l, Arr([])))
      else Chosen(Arr([]))
  }

  /** `processWeixinData(rawData, token)`.  It throws (Err) when the payload
      is `undefined`/`null` or the chosen list is truthy but not an array;
      every other failure is caught per item. */
  function ProcessWeixinData(host: Host, raw: Js, token: Js): (r: Result<seq<ArticleRecord>>)
    ensures r.Err? <==> Nullish(raw) || (SelectPublishList(host, raw).Chosen? && !SelectPublishList(host, raw).list.Arr?)
    ensures SelectPublishList(host, raw) == Unparsable ==> r == Ok([])
    ensures r.Ok? && SelectPublishList(host, raw).Chosen?
            ==> r.value == ItemsFrom(host, SelectPublishList(host, raw).list.items, token, 0)
  {
    match SelectPublishList(host, raw)
    case Throws => Err(TypeError)
    case Unparsable => Ok([])
    case Chosen(list) =>
      if list.Arr? then Ok(ItemsFrom(host, list.items, token, 0)) else Err(TypeError)
  }

  // ---------------------------------------------------------------------
  // Properties

  /** An item that does not throw yields one record per article entry, in
      order, each built from its own entry and position. */
  lemma OneRecordPerArticle(host: Host, item: Js, index: nat, token: Js)
    requires !ProcessItem(host, item, index, token).failed
    ensures var p := DecodeItem(host, item).value;
            var list := AppmsgList(p);
            var out := ProcessItem(host, item, index, token);
            && list.Arr?
            && |out.records| == |list.items|
            && forall k :: 0 <= k < |out.records| ==>
                 out.records[k].raw.appmsgInfo == list.items[k]
                 && MakeRecord(host, BatchOf(p).value, list.items[k], index, k, token) == Ok(out.records[k])
  {
    var p := DecodeItem(host, item).value;
    var b := BatchOf(p).value;
    var list := AppmsgList(p);
    var rs := ArticleResults(host, b, list.items, index, token);
    var out := UntilFirstError(rs);
    forall k | 0 <= k < |out.records|
      ensures out.records[k].raw.appmsgInfo == list.items[k]
      ensures MakeRecord(host, b, list.items[k], index, k, token) == Ok(out.records[k])
    {
      assert rs[k] == Ok(out.records[k]);
    }
  }

  /** An item that throws part-way keeps exactly the records of the entries
      before the first `undefined`/`null` entry. */
  lemma FailedItemKeepsEarlierRecords(host: Host, b: Batch, appmsgs: seq<Js>, index: nat, token: Js, f: nat)
    requires f < |appmsgs| && Nullish(appmsgs[f])
    requires forall k :: 0 <= k < f ==> !Nullish(appmsgs[k])
    ensures var out := UntilFirstError(ArticleResults(host, b, appmsgs, index, token));
            out.failed && |out.records| == f
  {
    var rs := ArticleResults(host, b, appmsgs, index, token);
    var out := UntilFirstError(rs);
    assert rs[f].Err?;
    var m := |out.records|;
    assert rs[m].Err?;
    assert Nullish(appmsgs[m]);
    assert m >= f;
    assert forall k :: 0 <= k < m ==> rs[k] == Ok(out.records[k]);
  }

  /** The records of the items from `i` on are those of the items before
      `k`, then item `k`'s own, then those after it: items are processed in
      list order, each at its own position, and an item that throws loses
      only its own later entries. */
  lemma ItemsFromSplit(host: Host, items: seq<Js>, token: Js, i: nat, k: nat)
    requires i <= k < |items|
    ensures ItemsFrom(host, items, token, i)
            == ItemsFrom(host, items[..k], token, i) + ProcessItem(host, items[k], k, token).records
               + ItemsFrom(host, items, token, k + 1)
  {
    ConcatMapFromSplit(items, ItemRecords(host, token), i, k);
  }

  /** An `undefined`/`null` publish item contributes no record, and the items
      around it keep theirs. */
  lemma NullishItemSkipped(host: Host, items: seq<Js>, token: Js, k: nat)
    requires k < |items| && Nullish(items[k])
    ensures ItemsFrom(host, items, token, 0)
            == ItemsFrom(host, items[..k], token, 0) + ItemsFrom(host, items, token, k + 1)
  {
    ItemsFromSplit(host, items, token, 0, k);
  }

  /** A payload object whose own `publish_list` is an array is processed
      item by item: the result is never an error, and item `k`'s records sit
      between those of the items before it and after it. */
  lemma OwnListProcessedInOrder(host: Host, raw: Js, items: seq<Js>, token: Js, k: nat)
    requires raw.Obj? && "publish_list" in raw.fields && raw.fields["publish_list"] == Arr(items)
    requires k < |items|
    ensures ProcessWeixinData(host, raw, token)
            == Ok(ItemsFrom(host, items[..k], token, 0) + ProcessItem(host, items[k], k, token).records
                  + ItemsFrom(host, items, token, k + 1))
  {
    ItemsFromSplit(host, items, token, 0, k);
  }

  /** All records of one publish item agree on the batch-level fields. */
  lemma BatchFieldsShared(host: Host, item: Js, index: nat, token: Js, k: nat, l: nat)
    requires var out := ProcessItem(host, item, index, token); k < |out.records| && l < |out.records|
    ensures var rs := ProcessItem(host, item, index, token).records;
            && rs[k].kind == rs[l].kind
            && rs[k].totalPush == rs[l].totalPush && rs[k].successPush == rs[l].successPush
            && rs[k].failPush == rs[l].failPush && rs[k].isAllPush == rs[l].isAllPush
            && rs[k].msgStatus == rs[l].msgStatus && rs[k].failReason == rs[l].failReason
            && rs[k].raw.publishItem == rs[l].raw.publishItem
  {
    var p := DecodeItem(host, item).value;
    var b := BatchOf(p).value;
    var list := AppmsgList(p);
    var rs := ArticleResults(host, b, list.items, index, token);
    var out := UntilFirstError(rs);
    assert rs[k] == Ok(out.records[k]) && rs[l] == Ok(out.records[l]);
    RecordBatchFields(host, b, list.items[k], index, k, token, list.items[l], index, l, token);
  }

  lemma NoUnderscoreInDigits(n: nat)
    ensures '_' !in NatToString(n)
  {
    var s := NatToString(n);
    assert forall i :: 0 <= i < |s| ==> IsDigit(s[i]);
  }

  /** Within one publish item the ids differ. */
  lemma IdsDistinctWithinItem(key: Js, j1: nat, j2: nat)
    ensures RecordId(key, j1) == RecordId(key, j2) <==> j1 == j2
  {
    var pre := JsString(key) + "_";
    if RecordId(key, j1) == RecordId(key, j2) {
      assert RecordId(key, j1) == pre + NatToString(j1);
      assert RecordId(key, j2) == pre + NatToString(j2);
      assert NatToString(j1) == RecordId(key, j1)[|pre|..];
      assert NatToString(j2) == RecordId(key, j2)[|pre|..];
      NatToStringInjective(j1, j2);
    }
  }

  /** Across items the id is unique as long as no key contains '_': the
      first '_' then separates the key from the position. */
  lemma IdDeterminesKeyAndPosition(k1: Js, j1: nat, k2: Js, j2: nat)
    requires '_' !in JsString(k1) && '_' !in JsString(k2)
    requires RecordId(k1, j1) == RecordId(k2, j2)
    ensures JsString(k1) == JsString(k2) && j1 == j2
  {
    var a := JsString(k1);
    var c := JsString(k2);
    var s := RecordId(k1, j1);
    assert s == a + ['_'] + NatToString(j1);
    assert s == c + ['_'] + NatToString(j2);
    FirstIndexAfterPrefix(a, '_', NatToString(j1));
    FirstIndexAfterPrefix(c, '_', NatToString(j2));
    assert |a| == |c|;
    assert a == s[..|a|] == c;
    assert NatToString(j1) == s[|a| + 1..] == NatToString(j2);
    NatToStringInjective(j1, j2);
  }

  /** But the `msgid || index` fallback lets two items collide: the fourth
      item without a msgid and an item whose msgid is 3 both give "3_0". */
  lemma IdsCanCollideAcrossItems()
    ensures RecordId(Or(Undef, Num(3)), 0) == RecordId(Or(Num(3), Num(0)), 0) == "3_0"
  {
  }
}
