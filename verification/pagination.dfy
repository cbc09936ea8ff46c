/** The pagination driver of the content script: reading the host page's
    pagination bar, pressing "next page", and the payload check.  The DOM is
    replaced by what the script reads from it. */
module Pagination {
  import opened JsValue

  /** The text every "next page" button carries. */
  const NextPageLabel: string := "下一页"

  /** A `.weui-desktop-btn` inside the pagination bar, as the script inspects
      it: trimmed text, the disabled class, the `disabled` property, and
      whether its inline style hides it. */
  datatype Button = Button(text: string, disabledClass: bool, disabled: bool, hidden: bool)

  /** The pagination bar: the text of the current-page element (None when
      there is none), the texts of the page-number elements, and the buttons
      in document order. */
  datatype PaginationBar = PaginationBar(currentText: Option<string>, numberTexts: seq<string>, buttons: seq<Button>)

  /** A page number as the script holds it; None is NaN. */
  type PageNo = Option<int>

  /** `n + 1` on a page number: NaN stays NaN. */
  function NextPageNo(p: PageNo): PageNo
  {
    match p
    case None => None
    case Some(n) => Some(n + 1)
  }

  datatype PaginationInfo = PaginationInfo(currentPage: PageNo, totalPages: int, hasNextPage: bool)

  /** `parseInt(text) || 0` of every page-number element. */
  function PageNumbers(texts: seq<string>): (r: seq<int>)
    ensures |r| == |texts|
    ensures forall k :: 0 <= k < |r| ==> r[k] == ParseIntOr0(Str(texts[k]))
  {
    if |texts| == 0 then [] else [ParseIntOr0(Str(texts[0]))] + PageNumbers(texts[1..])
  }

  /** `Math.max(...nums.filter(n => n > 0))`, or 1 when no number is positive. */
  function MaxPositiveOr1(nums: seq<int>): (r: int)
    ensures r >= 1
    ensures forall k :: 0 <= k < |nums| && nums[k] > 0 ==> nums[k] <= r
    ensures r == 1 || exists k :: 0 <= k < |nums| && nums[k] == r
    ensures (forall k :: 0 <= k < |nums| ==> nums[k] <= 0) ==> r == 1
  {
    if |nums| == 0 then 1
    else
      var rest := MaxPositiveOr1(nums[1..]);
      assert forall k :: 1 <= k < |nums| ==> nums[k] == nums[1..][k - 1];
      if nums[0] > rest then nums[0] else rest
  }

  /** Index of the first button whose text contains the next-page label. */
  function FirstNextButton(buttons: seq<Button>): (r: Option<nat>)
    ensures r.Some? ==> r.value < |buttons| && Contains(buttons[r.value].text, NextPageLabel)
    ensures r.Some? ==> forall j :: 0 <= j < r.value ==> !Contains(buttons[j].text, NextPageLabel)
    ensures r.None? ==> forall j :: 0 <= j < |buttons| ==> !Contains(buttons[j].text, NextPageLabel)
  {
    if |buttons| == 0 then None
    else if Contains(buttons[0].text, NextPageLabel) then Some(0)
    else
      match FirstNextButton(buttons[1..])
      case None => None
      case Some(i) => Some(i + 1)
  }

  predicate Enabled(b: Button)
  {
    !b.disabledClass && !b.disabled && !b.hidden
  }

  /** Whether the first button carrying the next-page label is usable. */
  predicate FirstNextEnabled(buttons: seq<Button>)
  {
    match FirstNextButton(buttons)
    case None => false
    case Some(i) => Enabled(buttons[i])
  }

  /** `detectPagination()`: null without a pagination bar; otherwise the
      current page (1 without a current-page element), the largest positive
      page number (1 if none), and whether the first next-page button is
      usable. */
  function DetectPagination(bar: Option<PaginationBar>): (r: Option<PaginationInfo>)
    ensures r.None? <==> bar.None?
    ensures r.Some? ==> r.value.totalPages >= 1
    ensures r.Some? && bar.value.currentText.None? ==> r.value.currentPage == Some(1)
    ensures r.Some? && bar.value.currentText.Some? ==>
              r.value.currentPage == ParseIntString(bar.value.currentText.value)
  {
    match bar
    case None => None
    case Some(b) =>
      var current := match b.currentText
                     case None => Some(1)
                     case Some(t) => ParseInt(Str(t));
      var total := MaxPositiveOr1(PageNumbers(b.numberTexts));
      Some(PaginationInfo(current, total, FirstNextEnabled(b.buttons)))
  }

  /** The total page count is the largest page number shown, or 1. */
  lemma TotalPagesIsLargestPageNumber(b: PaginationBar)
    ensures var total := DetectPagination(Some(b)).value.totalPages;
            && (forall k :: 0 <= k < |b.numberTexts| ==>
                  ParseIntOr0(Str(b.numberTexts[k])) <= total)
            && (total == 1 ||
                (exists k :: 0 <= k < |b.numberTexts| && ParseIntOr0(Str(b.numberTexts[k])) == total))
  {
    var nums := PageNumbers(b.numberTexts);
    var total := MaxPositiveOr1(nums);
    assert forall k :: 0 <= k < |b.numberTexts| ==> nums[k] == ParseIntOr0(Str(b.numberTexts[k]));
  }

  /** There is a next page exactly when some button carries the label and the
      first such button is neither disabled (by class or property) nor hidden. */
  lemma HasNextPageIffFirstLabelledButtonEnabled(b: PaginationBar)
    ensures DetectPagination(Some(b)).value.hasNextPage <==>
            exists i :: 0 <= i < |b.buttons| && Contains(b.buttons[i].text, NextPageLabel)
                        && (forall j :: 0 <= j < i ==> !Contains(b.buttons[j].text, NextPageLabel))
                        && Enabled(b.buttons[i])
  {
    assert DetectPagination(Some(b)).value.hasNextPage == FirstNextEnabled(b.buttons);
    FirstNextEnabledIff(b.buttons);
  }

  lemma FirstNextEnabledIff(buttons: seq<Button>)
    ensures FirstNextEnabled(buttons) <==>
            exists i :: 0 <= i < |buttons| && Contains(buttons[i].text, NextPageLabel)
                        && (forall j :: 0 <= j < i ==> !Contains(buttons[j].text, NextPageLabel))
                        && Enabled(buttons[i])
  {
    var first := FirstNextButton(buttons);
    if first.Some? {
      var i := first.value;
      assert Contains(buttons[i].text, NextPageLabel);
    }
  }

  /** What `clickNextPage()` does: it rejects with the "no next page" error
      when there is no usable next button, rejects with another error when
      the click itself throws, and otherwise dispatches the click. */
  datatype ClickOutcome = Clicked | NoNextPage | ClickThrew

  function ClickNextPage(bar: Option<PaginationBar>, clickThrows: bool): (r: ClickOutcome)
    ensures r == NoNextPage <==>
            (DetectPagination(bar).None? || !DetectPagination(bar).value.hasNextPage)
    ensures r == ClickThrew ==> clickThrows
  {
    var p := DetectPagination(bar);
    if p.None? || !p.value.hasNextPage then NoNextPage
    else if clickThrows then ClickThrew
    else Clicked
  }

  /** `validateWxData(data)`: falsy data is invalid; an object is valid when
      it has a `publish_list` key; an array has no such key; `in` on any
      other truthy primitive throws. */
  function ValidateWxData(data: Js): (r: Result<bool>)
    ensures !Truthy(data) ==> r == Ok(false)
    ensures data.Obj? ==> r == Ok("publish_list" in data.fields)
    ensures r.Err? <==> Truthy(data) && !data.Obj? && !data.Arr?
    ensures r == Ok(true) ==> data.Obj? && "publish_list" in data.fields
  {
    if !Truthy(data) then Ok(false)
    else
      match data
      case Obj(m) => Ok("publish_list" in m)
      case Arr(_) => Ok(false)
      case _ => Err(TypeError)
  }
}
