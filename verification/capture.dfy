/** The paginated capture engine of the content script: one shared
    `paginationState` record, driven by asynchronous capture runs that
    suspend at timers.

    Between two timer callbacks the script runs synchronously, so the host
    page cannot change under it; each resumption therefore sees one
    `PageSnapshot`.  Commands from the side panel (start, stop, status)
    arrive as separate events between timer callbacks.  A run that has been
    stopped keeps its pending timer, so a later start can leave two runs
    sharing the record; the model keeps every suspended run as a `Task`. */
module Capture {
  import opened JsValue
  import opened Pagination

  /** `waitForPageLoad`'s default timeout in milliseconds. */
  const LoadTimeoutMs: int := 15000

  /** What the content script reads from the host page during one synchronous
      stretch: the pagination bar, the payload `checkWxData()` finds (None when
      it finds none), and whether clicking the next button throws. */
  datatype PageSnapshot = PageSnapshot(bar: Option<PaginationBar>, wxData: Option<Js>, clickThrows: bool)

  /** Which of the three options callbacks the caller supplied. */
  datatype Callbacks = Callbacks(onProgress: bool, onComplete: bool, onError: bool)

  /** `paginationState`.  `startTime` is None until the first start. */
  datatype PState = PState(
    isRunning: bool,
    currentPage: PageNo,
    totalPages: int,
    collected: seq<Js>,
    startTime: Option<int>,
    callbacks: Callbacks)

  const InitialState: PState :=
    PState(false, Some(1), 0, [], None, Callbacks(false, false, false))

  /** The errors a run can raise. */
  datatype CaptureError =
    | AlreadyRunning          // start while isRunning
    | NoPaginationFound       // no pagination bar at start
    | LoadTimeout(checks: nat) // waitForPageLoad gave up after this many checks
    | ClickFailed             // the next button's click threw
    | NoNextPageError         // clickNextPage found no usable next button

  /** The loop's test `error.message.includes('没有下一页')`. */
  predicate EndsLoop(e: CaptureError)
  {
    e.NoNextPageError?
  }

  /** The kinds of progress report, one per `onProgress` call site. */
  datatype ProgressKind =
    | Waiting      // each poll of waitForPageLoad
    | PageCaptured // after a capture, with the page's article count
    | Navigating   // before clicking next
    | Switched     // after the click, page number advanced
    | Retrying     // a loop step failed, retrying the capture
    | Skipped      // the retry failed, skipping the page

  datatype Progress = Progress(currentPage: PageNo, totalPages: int, collectedCount: nat,
                               currentPageCount: nat, kind: ProgressKind)

  /** The object handed to `onComplete`: `pages_captured` is the current page
      number, not a count; a manual stop has no duration. */
  datatype CaptureResult = CaptureResult(publishList: seq<Js>, totalCount: nat, pagesCaptured: PageNo,
                                         durationSeconds: Option<int>, stoppedManually: bool)

  /** `getPaginationStatus()` */
  datatype Status = Status(isRunning: bool, currentPage: PageNo, totalPages: int,
                           collectedCount: nat, startTime: Option<int>)

  /** What the outside world observes: callback invocations, the rejection
      of a start call, and the replies to stop and status. */
  datatype Event =
    | ProgressEvent(progress: Progress)
    | CompleteEvent(result: CaptureResult)
    | ErrorEvent(error: CaptureError)
    | StartRejected(error: CaptureError)
    | StopReply(stopped: Option<CaptureResult>)
    | StatusReply(status: Status)

  /** Where a capture of the current page was called from: the start, the
      loop body, or the loop's one retry. */
  datatype CaptureSite = FromStart | FromLoop | FromRetry

  /** A run suspended at a timer. */
  datatype Task =
    | Polling(site: CaptureSite, waitStart: int, checks: nat) // 500 ms between polls
    | Clicking    // 500 ms after the click, before clickNextPage resolves
    | Settling    // 1 s after advancing, before capturing
    | BackingOff  // 3 s before the retry
    | Pausing     // 1 s after a failed retry

  /** The result of one synchronous stretch of a run: the new shared state,
      the events emitted, and where the run suspended (None when it ended). */
  datatype Segment = Segment(st: PState, events: seq<Event>, next: Option<Task>)

  datatype Machine = Machine(st: PState, tasks: seq<Task>, trace: seq<Event>)

  datatype Input =
    | StartCmd(options: Callbacks, page: PageSnapshot, now: int)
    | StopCmd(now: int)
    | StatusCmd
    | Tick(task: nat, page: PageSnapshot, now: int)

  const InitialMachine: Machine := Machine(InitialState, [], [])

  /** `Math.round(ms / 1000)`: the whole number of seconds nearest to
      `ms`, a half rounding up. */
  function RoundedSeconds(ms: int): (r: int)
    ensures 2000 * r - 1000 <= 2 * ms < 2000 * r + 1000
  {
    (2 * ms + 1000) / 2000
  }

  /** Every progress report in `events` gives `n` as the collected count. */
  predicate CountsAre(events: seq<Event>, n: nat)
  {
    forall k :: 0 <= k < |events| && events[k].ProgressEvent? ==> events[k].progress.collectedCount == n
  }

  /** An `onProgress` call built from the shared state at the call: made
      exactly when a callback is registered, and reporting the state's page,
      total and `collectedData.length` at that moment. */
  function Report(st: PState, kind: ProgressKind, pageCount: nat): (r: seq<Event>)
    ensures |r| == (if st.callbacks.onProgress then 1 else 0)
    ensures forall k :: 0 <= k < |r| ==>
              r[k].ProgressEvent? && r[k].progress.kind == kind && r[k].progress.currentPageCount == pageCount
              && r[k].progress.currentPage == st.currentPage && r[k].progress.totalPages == st.totalPages
    ensures CountsAre(r, |st.collected|)
  {
    if st.callbacks.onProgress
    then [ProgressEvent(Progress(st.currentPage, st.totalPages, |st.collected|, pageCount, kind))]
    else []
  }

  /** The articles of a captured payload.  The script spreads the payload
      into a fresh object, so only an object payload contributes keys; the
      array branch can never be taken.  A string list spreads into its
      characters; a list without a length contributes nothing. */
  function PageArticles(data: Js): (r: seq<Js>)
    ensures !data.Obj? ==> r == []
    ensures data.Obj? && Truthy(Field(data, "cgiData")) && Field(Field(data, "cgiData"), "publish_list").Arr?
            ==> r == Field(Field(data, "cgiData"), "publish_list").items
    ensures data.Obj? && Truthy(Field(data, "cgiData")) && !Truthy(Field(Field(data, "cgiData"), "publish_list"))
            ==> r == []
    ensures data.Obj? && !Truthy(Field(data, "cgiData")) && Field(data, "publish_list").Arr?
            ==> r == Field(data, "publish_list").items
    ensures data.Obj? && !Truthy(Field(data, "cgiData")) && !Truthy(Field(data, "publish_list")) ==> r == []
  {
    var cgi := if data.Obj? && "cgiData" in data.fields then data.fields["cgiData"] else Undef;
    var own := if data.Obj? && "publish_list" in data.fields then data.fields["publish_list"] else Undef;
    var list := if Truthy(cgi) then Or(Field(cgi, "publish_list"), Arr([]))
                else if Truthy(own) then own
                else Arr([]);
    ListItems(list)
  }

  /** The elements `push(...list)` appends. */
  function ListItems(list: Js): (r: seq<Js>)
    ensures list.Arr? ==> r == list.items
    ensures list.Str? ==> |r| == |list.s| && forall k :: 0 <= k < |r| ==> r[k] == Str([list.s[k]])
    ensures !list.Arr? && !list.Str? ==> r == []
  {
    match list
    case Arr(items) => items
    case Str(s) => seq(|s|, k requires 0 <= k < |s| => Str([s[k]]))
    case _ => []
  }

  /** `completePaginationCapture()` */
  function Complete(st: PState, now: int): (seg: Segment)
    ensures !seg.st.isRunning && seg.next.None?
    ensures seg.st == st.(isRunning := false)
  {
    var duration := match st.startTime
                    case None => None
                    case Some(t) => Some(RoundedSeconds(now - t));
    var result := CaptureResult(st.collected, |st.collected|, st.currentPage, duration, false);
    Segment(st.(isRunning := false),
            if st.callbacks.onComplete then [CompleteEvent(result)] else [],
            None)
  }

  /** The catch block of `startPaginationCapture`: the run ends, `onError`
      (whichever is registered now) is told, and the start call rejects. */
  function Fail(st: PState, e: CaptureError): (seg: Segment)
    ensures !seg.st.isRunning && seg.next.None?
    ensures seg.st == st.(isRunning := false)
    ensures |seg.events| > 0 && seg.events[|seg.events| - 1] == StartRejected(e)
    ensures forall k :: 0 <= k < |seg.events| ==> !seg.events[k].CompleteEvent?
  {
    Segment(st.(isRunning := false),
            (if st.callbacks.onError then [ErrorEvent(e)] else []) + [StartRejected(e)],
            None)
  }

  /** The top of the `captureRemainingPages` loop: stop when not running or
      when there is no usable next page, otherwise report, click, and suspend
      until the click settles. */
  function LoopTop(st: PState, page: PageSnapshot, now: int): (seg: Segment)
    ensures seg.next.None? || seg.next == Some(Clicking) || seg.next == Some(BackingOff)
    ensures seg.st == st.(isRunning := seg.st.isRunning)
    ensures seg.st.isRunning ==> st.isRunning && seg.next.Some?
  {
    var info := DetectPagination(page.bar);
    if !st.isRunning || info.None? || !info.value.hasNextPage then Complete(st, now)
    else
      var navigating := Report(st, Navigating, 0);
      match ClickNextPage(page.bar, page.clickThrows)
      case Clicked => Segment(st, navigating, Some(Clicking))
      case NoNextPage => LoopError(st, navigating, NoNextPageError, now)
      case ClickThrew => LoopError(st, navigating, ClickFailed, now)
  }

  /** The loop's catch block: the "no next page" error ends the loop, any
      other error reports and waits before the single retry. */
  function LoopError(st: PState, before: seq<Event>, e: CaptureError, now: int): (seg: Segment)
    ensures !EndsLoop(e) ==> seg.st == st && seg.next == Some(BackingOff)
    ensures EndsLoop(e) ==> seg.next.None? && !seg.st.isRunning
    ensures seg.st == st.(isRunning := seg.st.isRunning)
  {
    if EndsLoop(e) then
      var done := Complete(st, now);
      Segment(done.st, before + done.events, None)
    else Segment(st, before + Report(st, Retrying, 0), Some(BackingOff))
  }

  /** How a failed page capture is handled where it was called from. */
  function CaptureFailed(st: PState, site: CaptureSite, before: seq<Event>, e: CaptureError, now: int): (seg: Segment)
    ensures seg.st == st.(isRunning := seg.st.isRunning)
    ensures seg.st.isRunning ==> st.isRunning && seg.next.Some?
  {
    match site
    case FromStart =>
      var f := Fail(st, e);
      Segment(f.st, before + f.events, None)
    case FromLoop => LoopError(st, before, e, now)
    case FromRetry => Segment(st, before + Report(st, Skipped, 0), Some(Pausing))
  }

  /** One check of `waitForPageLoad` followed, when the payload is there, by
      `captureCurrentPageInPagination`'s capture.  Every caller continues at
      the loop's test after a successful capture. */
  function Poll(st: PState, site: CaptureSite, waitStart: int, checks: nat,
                page: PageSnapshot, now: int): (seg: Segment)
    ensures page.wxData.Some? ==>
              |seg.st.collected| == |st.collected| + |PageArticles(page.wxData.value)|
              && seg.st.collected[..|st.collected|] == st.collected
              && seg.st.collected[|st.collected|..] == PageArticles(page.wxData.value)
    ensures page.wxData.None? ==> seg.st.collected == st.collected
    ensures page.wxData.None? && now - waitStart <= LoadTimeoutMs ==>
              seg.st == st && seg.next == Some(Polling(site, waitStart, checks + 1))
    ensures seg.st == st.(isRunning := seg.st.isRunning, collected := seg.st.collected)
    ensures seg.st.isRunning ==> st.isRunning && seg.next.Some?
  {
    var waiting := Report(st, Waiting, 0);
    match page.wxData
    case Some(data) =>
      var articles := PageArticles(data);
      var st1 := st.(collected := st.collected + articles);
      var captured := Report(st1, PageCaptured, |articles|);
      var rest := LoopTop(st1, page, now);
      assert rest.st.collected == st.collected + articles;
      Segment(rest.st, waiting + captured + rest.events, rest.next)
    case None =>
      if now - waitStart > LoadTimeoutMs then CaptureFailed(st, site, waiting, LoadTimeout(checks + 1), now)
      else Segment(st, waiting, Some(Polling(site, waitStart, checks + 1)))
  }

  /** A timer of a suspended run fires. */
  function Resume(t: Task, st: PState, page: PageSnapshot, now: int): (seg: Segment)
    ensures |st.collected| <= |seg.st.collected| && seg.st.collected[..|st.collected|] == st.collected
    ensures seg.st.isRunning ==> st.isRunning && seg.next.Some?
    ensures seg.st == st.(isRunning := seg.st.isRunning, collected := seg.st.collected,
                          currentPage := seg.st.currentPage)
  {
    match t
    case Polling(site, waitStart, checks) => Poll(st, site, waitStart, checks, page, now)
    case Clicking =>
      var st1 := st.(currentPage := NextPageNo(st.currentPage));
      Segment(st1, Report(st1, Switched, 0), Some(Settling))
    case Settling => Poll(st, FromLoop, now, 0, page, now)
    case BackingOff => Poll(st, FromRetry, now, 0, page, now)
    case Pausing => LoopTop(st, page, now)
  }

  /** `startPaginationCapture(options)` up to its first suspension. */
  function Start(st: PState, options: Callbacks, page: PageSnapshot, now: int): (seg: Segment)
    ensures st.isRunning ==> seg.st == st.(isRunning := false) && seg.next.None?
                             && |seg.events| > 0 && seg.events[|seg.events| - 1] == StartRejected(AlreadyRunning)
    ensures !st.isRunning ==> seg.st.callbacks == options && seg.st.startTime == Some(now)
    ensures !st.isRunning && DetectPagination(page.bar).None? ==>
              !seg.st.isRunning && seg.next.None? && seg.st.collected == []
              && |seg.events| > 0 && seg.events[|seg.events| - 1] == StartRejected(NoPaginationFound)
    ensures !st.isRunning && DetectPagination(page.bar).Some? ==>
              seg.st.currentPage == DetectPagination(page.bar).value.currentPage
              && seg.st.totalPages == DetectPagination(page.bar).value.totalPages
    ensures !st.isRunning && DetectPagination(page.bar).Some? && page.wxData.Some? ==>
              seg.st.collected == PageArticles(page.wxData.value)
    ensures !st.isRunning && page.wxData.None? ==> seg.st.collected == []
    ensures seg.st.isRunning ==> seg.next.Some?
  {
    if st.isRunning then Fail(st, AlreadyRunning)
    else
      var st1 := st.(isRunning := true, collected := [], startTime := Some(now), callbacks := options);
      match DetectPagination(page.bar)
      case None => Fail(st1, NoPaginationFound)
      case Some(info) =>
        var st2 := st1.(currentPage := info.currentPage, totalPages := info.totalPages);
        Poll(st2, FromStart, now, 0, page, now)
  }

  /** `stopPaginationCapture()`: the reply is null when nothing runs. */
  function Stop(st: PState): (r: (PState, seq<Event>))
    ensures !st.isRunning ==> r == (st, [StopReply(None)])
    ensures st.isRunning ==>
              var partial := CaptureResult(st.collected, |st.collected|, st.currentPage, None, true);
              && r.0 == st.(isRunning := false)
              && r.1 == (if st.callbacks.onComplete then [CompleteEvent(partial), StopReply(Some(partial))]
                         else [StopReply(Some(partial))])
  {
    if !st.isRunning then (st, [StopReply(None)])
    else
      var partial := CaptureResult(st.collected, |st.collected|, st.currentPage, None, true);
      (st.(isRunning := false),
       (if st.callbacks.onComplete then [CompleteEvent(partial)] else []) + [StopReply(Some(partial))])
  }

  /** `getPaginationStatus()` */
  function GetStatus(st: PState): (r: Status)
    ensures r.isRunning == st.isRunning && r.currentPage == st.currentPage && r.totalPages == st.totalPages
    ensures r.collectedCount == |st.collected| && r.startTime == st.startTime
  {
    Status(st.isRunning, st.currentPage, st.totalPages, |st.collected|, st.startTime)
  }

  function Park(next: Option<Task>): seq<Task>
  {
    match next
    case None => []
    case Some(t) => [t]
  }

  /** One event of the world. A tick for a task that does not exist changes nothing. */
  function Step(m: Machine, input: Input): (r: Machine)
    ensures |m.trace| <= |r.trace| && r.trace[..|m.trace|] == m.trace
    ensures input.StatusCmd? ==> r == m.(trace := m.trace + [StatusReply(GetStatus(m.st))])
    ensures input.StopCmd? ==> !r.st.isRunning && r.tasks == m.tasks
    ensures input.StartCmd? ==> |m.tasks| <= |r.tasks| <= |m.tasks| + 1 && r.tasks[..|m.tasks|] == m.tasks
    ensures input.Tick? && input.task >= |m.tasks| ==> r == m
    ensures !input.StartCmd? && !m.st.isRunning ==> !r.st.isRunning
  {
    match input
    case StartCmd(options, page, now) =>
      var seg := Start(m.st, options, page, now);
      Machine(seg.st, m.tasks + Park(seg.next), m.trace + seg.events)
    case StopCmd(_) =>
      var (st, events) := Stop(m.st);
      Machine(st, m.tasks, m.trace + events)
    case StatusCmd =>
      Machine(m.st, m.tasks, m.trace + [StatusReply(GetStatus(m.st))])
    case Tick(i, page, now) =>
      if i >= |m.tasks| then m
      else
        var seg := Resume(m.tasks[i], m.st, page, now);
        Machine(seg.st, m.tasks[..i] + Park(seg.next) + m.tasks[i + 1..], m.trace + seg.events)
  }

  function Run(m: Machine, inputs: seq<Input>): (r: Machine)
    ensures |m.trace| <= |r.trace| && r.trace[..|m.trace|] == m.trace
    ensures !m.st.isRunning && (forall k :: 0 <= k < |inputs| ==> !inputs[k].StartCmd?) ==> !r.st.isRunning
    decreases |inputs|
  {
    if |inputs| == 0 then m else Run(Step(m, inputs[0]), inputs[1..])
  }
}
