/** Properties of the paginated capture engine. */
module CaptureProps {
  import opened JsValue
  import opened Pagination
  import opened Capture

  predicate NoCompletion(events: seq<Event>)
  {
    forall k :: 0 <= k < |events| ==> !events[k].CompleteEvent?
  }

  /** Starting while a run is active throws inside the start's own try block:
      the catch clears `isRunning` for the live run, tells the live run's
      `onError`, and rejects; the new options are never registered and no
      run is added. */
  lemma StartWhileRunningStopsLiveRun(m: Machine, options: Callbacks, page: PageSnapshot, now: int)
    requires m.st.isRunning
    ensures var m' := Step(m, StartCmd(options, page, now));
            && !m'.st.isRunning
            && m'.tasks == m.tasks
            && m'.st == m.st.(isRunning := false)
            && m'.trace == m.trace + (if m.st.callbacks.onError then [ErrorEvent(AlreadyRunning)] else [])
                                   + [StartRejected(AlreadyRunning)]
  {
  }

  /** Without a pagination bar the start fails: the run ends, the new
      `onError` is told, the start rejects, and nothing completes. */
  lemma StartWithoutPaginationFails(m: Machine, options: Callbacks, page: PageSnapshot, now: int)
    requires !m.st.isRunning && page.bar.None?
    ensures var m' := Step(m, StartCmd(options, page, now));
            && !m'.st.isRunning
            && m'.tasks == m.tasks
            && m'.st.collected == []
            && m'.st.callbacks == options
            && m'.trace == m.trace + (if options.onError then [ErrorEvent(NoPaginationFound)] else [])
                                   + [StartRejected(NoPaginationFound)]
  {
  }

  /** A failure to load the first page is fatal: the run ends with `onError`
      and a rejected start, and `onComplete` is not called. */
  lemma FirstPageTimeoutIsFatal(m: Machine, i: nat, page: PageSnapshot, now: int)
    requires i < |m.tasks| && m.tasks[i].Polling? && m.tasks[i].site == FromStart
    requires page.wxData.None? && now - m.tasks[i].waitStart > LoadTimeoutMs
    ensures var m' := Step(m, Tick(i, page, now));
            var emitted := m'.trace[|m.trace|..];
            && !m'.st.isRunning
            && m'.tasks == m.tasks[..i] + m.tasks[i + 1..]
            && m'.st.collected == m.st.collected
            && |m'.trace| > |m.trace| && m'.trace[..|m.trace|] == m.trace
            && NoCompletion(emitted)
            && emitted[|emitted| - 1] == StartRejected(LoadTimeout(m.tasks[i].checks + 1))
  {
    var t := m.tasks[i];
    var seg := Resume(t, m.st, page, now);
    var waiting := Report(m.st, Waiting, 0);
    var f := Fail(m.st, LoadTimeout(t.checks + 1));
    assert seg == Segment(f.st, waiting + f.events, None);
    assert Park(seg.next) == [];
    var emitted := waiting + f.events;
    assert Step(m, Tick(i, page, now)).trace == m.trace + emitted;
    assert forall k :: 0 <= k < |waiting| ==> waiting[k].ProgressEvent?;
    assert forall k :: 0 <= k < |emitted| ==> !emitted[k].CompleteEvent? by {
      forall k | 0 <= k < |emitted|
        ensures !emitted[k].CompleteEvent?
      {
        if k >= |waiting| {
          assert emitted[k] == f.events[k - |waiting|];
        }
      }
    }
  }

  /** The loop ends exactly when the state is no longer running, no
      pagination bar is found, or it has no usable next button; ending always
      clears `isRunning` and calls `onComplete` (when registered) with a
      natural, not manual, completion. */
  lemma LoopEndsExactlyWhen(st: PState, page: PageSnapshot, now: int)
    ensures var seg := LoopTop(st, page, now);
            var info := DetectPagination(page.bar);
            && (seg.next.None? <==> (!st.isRunning || info.None? || !info.value.hasNextPage))
            && (seg.next.None? ==> !seg.st.isRunning
                                   && seg.events == Complete(st, now).events
                                   && (st.callbacks.onComplete <==> |seg.events| == 1)
                                   && (st.callbacks.onComplete ==>
                                         seg.events[0].CompleteEvent? && !seg.events[0].result.stoppedManually
                                         && seg.events[0].result.pagesCaptured == st.currentPage
                                         && seg.events[0].result.publishList == st.collected))
            && (seg.next == Some(Clicking) <==>
                  st.isRunning && info.Some? && info.value.hasNextPage && !page.clickThrows)
  {
    var info := DetectPagination(page.bar);
    if !st.isRunning || info.None? || !info.value.hasNextPage {
      assert LoopTop(st, page, now) == Complete(st, now);
    } else {
      NoNextPageRejectionUnreachableInLoop(st, page);
    }
  }

  /** Inside the loop, the "no next page" rejection of `clickNextPage` can
      never happen: it re-reads the same page the loop has just found a
      usable next button on. */
  lemma NoNextPageRejectionUnreachableInLoop(st: PState, page: PageSnapshot)
    requires st.isRunning
    requires DetectPagination(page.bar).Some? && DetectPagination(page.bar).value.hasNextPage
    ensures ClickNextPage(page.bar, page.clickThrows) != NoNextPage
  {
  }

  /** The page number moves only when a click settles, and then by exactly one. */
  lemma PageAdvancesOnlyOnClick(t: Task, st: PState, page: PageSnapshot, now: int)
    ensures var seg := Resume(t, st, page, now);
            seg.st.currentPage == (if t.Clicking? then NextPageNo(st.currentPage) else st.currentPage)
  {
  }

  /** A failure in the loop leads to exactly one retry of the capture, and a
      failed retry skips the page without adding anything and returns to the
      loop's next detection. */
  lemma FailureRetriesOnceThenSkips(st: PState, page: PageSnapshot, waitStart: int, checks: nat, now: int)
    requires page.wxData.None? && now - waitStart > LoadTimeoutMs
    ensures var seg := Resume(Polling(FromLoop, waitStart, checks), st, page, now);
            seg.next == Some(BackingOff) && seg.st == st
    ensures forall later: PageSnapshot, t: int ::
              Resume(BackingOff, st, later, t) == Poll(st, FromRetry, t, 0, later, t)
    ensures var seg := Resume(Polling(FromRetry, waitStart, checks), st, page, now);
            seg.next == Some(Pausing) && seg.st == st
    ensures forall later: PageSnapshot, t: int ::
              Resume(Pausing, st, later, t) == LoopTop(st, later, t)
  {
  }

  /** A successful capture appends the page's articles, and its report
      carries the new running total and the page's own count. */
  lemma CaptureAppendsAndReports(st: PState, site: CaptureSite, waitStart: int, checks: nat,
                                 page: PageSnapshot, now: int)
    requires page.wxData.Some? && st.callbacks.onProgress
    ensures var seg := Poll(st, site, waitStart, checks, page, now);
            var articles := PageArticles(page.wxData.value);
            && seg.st.collected == st.collected + articles
            && |seg.events| >= 2
            && seg.events[0] == ProgressEvent(Progress(st.currentPage, st.totalPages, |st.collected|, 0, Waiting))
            && seg.events[1] == ProgressEvent(Progress(st.currentPage, st.totalPages,
                                                       |seg.st.collected|, |articles|, PageCaptured))
  {
    var seg := Poll(st, site, waitStart, checks, page, now);
    var articles := PageArticles(page.wxData.value);
    assert seg.st.collected == st.collected + articles by {
      assert seg.st.collected == seg.st.collected[..|st.collected|] + seg.st.collected[|st.collected|..];
    }
  }

  /** Stopping when nothing runs replies null and changes nothing else. */
  lemma StopWhenIdleIsInert(m: Machine, now: int)
    requires !m.st.isRunning
    ensures Step(m, StopCmd(now)) == m.(trace := m.trace + [StopReply(None)])
  {
  }

  /** Stopping a run clears `isRunning`, reports the partial result to
      `onComplete`, and replies with it; runs still suspended are untouched. */
  lemma StopWhenRunningReturnsPartial(m: Machine, now: int)
    requires m.st.isRunning
    ensures var m' := Step(m, StopCmd(now));
            var partial := CaptureResult(m.st.collected, |m.st.collected|, m.st.currentPage, None, true);
            && m'.st == m.st.(isRunning := false)
            && m'.tasks == m.tasks
            && m'.trace == m.trace + (if m.st.callbacks.onComplete then [CompleteEvent(partial)] else [])
                                   + [StopReply(Some(partial))]
  {
  }

  /** A stop does not end the loop by itself: when the stopped run next
      reaches the loop's test it completes again, so `onComplete` is called a
      second time, now without the manual-stop flag. */
  lemma StopThenLoopCompletesTwice(m: Machine, i: nat, page: PageSnapshot, t1: int, t2: int)
    requires m.st.isRunning && m.st.callbacks.onComplete
    requires i < |m.tasks| && m.tasks[i] == Pausing
    ensures |Run(m, [StopCmd(t1), Tick(i, page, t2)]).trace| == |m.trace| + 3
    ensures var m' := Run(m, [StopCmd(t1), Tick(i, page, t2)]);
            var emitted := m'.trace[|m.trace|..];
            && m'.trace[..|m.trace|] == m.trace
            && emitted[0].CompleteEvent? && emitted[0].result.stoppedManually
            && emitted[1] == StopReply(Some(emitted[0].result))
            && emitted[2].CompleteEvent? && !emitted[2].result.stoppedManually
            && emitted[2].result.publishList == emitted[0].result.publishList
            && m'.tasks == m.tasks[..i] + m.tasks[i + 1..]
  {
    var partial := CaptureResult(m.st.collected, |m.st.collected|, m.st.currentPage, None, true);
    var m1 := Step(m, StopCmd(t1));
    StopWhenRunningReturnsPartial(m, t1);
    var m2 := Step(m1, Tick(i, page, t2));
    var done := Complete(m1.st, t2);
    assert m2 == Machine(done.st, m.tasks[..i] + m.tasks[i + 1..], m1.trace + done.events) by {
      assert Resume(m1.tasks[i], m1.st, page, t2) == done;
    }
    assert |done.events| == 1 && done.events[0].CompleteEvent? by {
      assert m1.st.callbacks.onComplete;
    }
    var emitted := [CompleteEvent(partial), StopReply(Some(partial)), done.events[0]];
    assert m2.trace == m.trace + emitted;
    RunTwo(m, m1, m2, StopCmd(t1), Tick(i, page, t2));
    AppendedPart(m.trace, emitted);
  }

  lemma AppendedPart<T>(a: seq<T>, b: seq<T>)
    ensures |a + b| == |a| + |b| && (a + b)[..|a|] == a && (a + b)[|a|..] == b
  {
  }

  /** `Run` over two inputs is two steps. */
  lemma RunTwo(m0: Machine, m1: Machine, m2: Machine, i0: Input, i1: Input)
    requires Step(m0, i0) == m1 && Step(m1, i1) == m2
    ensures Run(m0, [i0, i1]) == m2
  {
    assert Run(m0, [i0, i1]) == Run(m1, [i1]);
    assert Run(m1, [i1]) == Run(m2, []);
  }

  /** Between starts, the collected articles only grow. */
  lemma CollectedOnlyGrows(m: Machine, input: Input)
    requires !input.StartCmd? || m.st.isRunning
    ensures var m' := Step(m, input);
            |m.st.collected| <= |m'.st.collected| && m'.st.collected[..|m.st.collected|] == m.st.collected
  {
    match input
    case StartCmd(_, _, _) =>
    case StopCmd(_) =>
    case StatusCmd =>
    case Tick(_, _, _) =>
  }

  /** A timer firing consumes its own run's entry, which the run replaces
      only when it suspends again; every other pending run keeps its place. */
  lemma TickConsumesItsTask(m: Machine, i: nat, page: PageSnapshot, now: int)
    requires i < |m.tasks|
    ensures var r := Step(m, Tick(i, page, now));
            && |m.tasks| - 1 <= |r.tasks| <= |m.tasks|
            && r.tasks[..i] == m.tasks[..i]
            && r.tasks[|r.tasks| - (|m.tasks| - i - 1)..] == m.tasks[i + 1..]
  {
  }

  lemma CountsAreAppend(a: seq<Event>, b: seq<Event>, n: nat)
    requires CountsAre(a, n) && CountsAre(b, n)
    ensures CountsAre(a + b, n)
  {
    assert forall k :: 0 <= k < |a| ==> (a + b)[k] == a[k];
    assert forall k :: |a| <= k < |a| + |b| ==> (a + b)[k] == b[k - |a|];
  }

  /** Completion and failure report no progress. */
  lemma EndingsReportNoProgress(st: PState, e: CaptureError, now: int)
    ensures forall n: nat :: CountsAre(Complete(st, now).events, n) && CountsAre(Fail(st, e).events, n)
  {
  }

  /** The loop's catch block reports the number of articles collected so far. */
  lemma LoopErrorReportsCurrentCount(st: PState, before: seq<Event>, e: CaptureError, now: int)
    requires CountsAre(before, |st.collected|)
    ensures CountsAre(LoopError(st, before, e, now).events, |st.collected|)
  {
    EndingsReportNoProgress(st, e, now);
    if EndsLoop(e) {
      CountsAreAppend(before, Complete(st, now).events, |st.collected|);
    } else {
      CountsAreAppend(before, Report(st, Retrying, 0), |st.collected|);
    }
  }

  /** The loop's test, with its "navigating" report, reports the number of
      articles collected so far. */
  lemma LoopTopReportsCurrentCount(st: PState, page: PageSnapshot, now: int)
    ensures CountsAre(LoopTop(st, page, now).events, |st.collected|)
  {
    EndingsReportNoProgress(st, NoNextPageError, now);
    var info := DetectPagination(page.bar);
    if st.isRunning && info.Some? && info.value.hasNextPage {
      var navigating := Report(st, Navigating, 0);
      match ClickNextPage(page.bar, page.clickThrows)
      case Clicked =>
      case NoNextPage => LoopErrorReportsCurrentCount(st, navigating, NoNextPageError, now);
      case ClickThrew => LoopErrorReportsCurrentCount(st, navigating, ClickFailed, now);
    }
  }

  /** A failed capture, wherever it was called from, reports the number of
      articles collected so far. */
  lemma CaptureFailedReportsCurrentCount(st: PState, site: CaptureSite, before: seq<Event>, e: CaptureError, now: int)
    requires CountsAre(before, |st.collected|)
    ensures CountsAre(CaptureFailed(st, site, before, e, now).events, |st.collected|)
  {
    EndingsReportNoProgress(st, e, now);
    match site
    case FromStart => CountsAreAppend(before, Fail(st, e).events, |st.collected|);
    case FromLoop => LoopErrorReportsCurrentCount(st, before, e, now);
    case FromRetry => CountsAreAppend(before, Report(st, Skipped, 0), |st.collected|);
  }

  /** The "switched" report after a click gives the new page number and the
      number of articles collected so far. */
  lemma SwitchReportsCurrentCount(st: PState, page: PageSnapshot, now: int)
    ensures var seg := Resume(Clicking, st, page, now);
            && CountsAre(seg.events, |st.collected|)
            && forall k :: 0 <= k < |seg.events| ==> seg.events[k].progress.currentPage == NextPageNo(st.currentPage)
  {
  }

  lemma PrefixThenCounts(a: seq<Event>, b: seq<Event>, n: nat, m: nat)
    requires CountsAre(b, m)
    ensures (a + b)[..|a|] == a && CountsAre((a + b)[|a|..], m)
  {
    assert (a + b)[|a|..] == b;
  }

  /** The loop's catch block only appends to the reports made before it. */
  lemma LoopErrorExtends(st: PState, before: seq<Event>, e: CaptureError, now: int)
    ensures LoopError(st, before, e, now).events == before + LoopError(st, [], e, now).events
  {
    if EndsLoop(e) {
      assert [] + Complete(st, now).events == Complete(st, now).events;
    } else {
      assert [] + Report(st, Retrying, 0) == Report(st, Retrying, 0);
    }
  }

  /** A failed capture only appends to the reports made before it. */
  lemma CaptureFailedExtends(st: PState, site: CaptureSite, before: seq<Event>, e: CaptureError, now: int)
    ensures CaptureFailed(st, site, before, e, now).events == before + CaptureFailed(st, site, [], e, now).events
  {
    match site
    case FromStart => assert [] + Fail(st, e).events == Fail(st, e).events;
    case FromLoop => LoopErrorExtends(st, before, e, now);
    case FromRetry => assert [] + Report(st, Skipped, 0) == Report(st, Skipped, 0);
  }

  /** A poll's "waiting" report gives the count before the capture; every
      later report of the same stretch gives the count after it. */
  lemma PollReportsCurrentCount(st: PState, site: CaptureSite, waitStart: int, checks: nat,
                                page: PageSnapshot, now: int)
    ensures var seg := Poll(st, site, waitStart, checks, page, now);
            var waiting := Report(st, Waiting, 0);
            && |waiting| <= |seg.events| && seg.events[..|waiting|] == waiting
            && CountsAre(waiting, |st.collected|)
            && CountsAre(seg.events[|waiting|..], |seg.st.collected|)
  {
    var seg := Poll(st, site, waitStart, checks, page, now);
    var waiting := Report(st, Waiting, 0);
    match page.wxData
    case Some(data) =>
      var st1 := st.(collected := st.collected + PageArticles(data));
      var captured := Report(st1, PageCaptured, |PageArticles(data)|);
      var rest := LoopTop(st1, page, now);
      assert seg.events == waiting + (captured + rest.events) && seg.st == rest.st;
      LoopTopReportsCurrentCount(st1, page, now);
      CountsAreAppend(captured, rest.events, |st1.collected|);
      PrefixThenCounts(waiting, captured + rest.events, |st.collected|, |st1.collected|);
    case None =>
      if now - waitStart > LoadTimeoutMs {
        var e := LoadTimeout(checks + 1);
        assert seg == CaptureFailed(st, site, waiting, e, now);
        CaptureFailedExtends(st, site, waiting, e, now);
        CaptureFailedReportsCurrentCount(st, site, [], e, now);
        PrefixThenCounts(waiting, CaptureFailed(st, site, [], e, now).events, |st.collected|, |st.collected|);
      } else {
        PrefixThenCounts(waiting, [], |st.collected|, |st.collected|);
        assert waiting + [] == waiting;
      }
  }

  /** A capture that is running always has a suspended run driving it. */
  predicate RunningHasTask(m: Machine)
  {
    m.st.isRunning ==> |m.tasks| > 0
  }

  lemma StepKeepsRunningHasTask(m: Machine, input: Input)
    requires RunningHasTask(m)
    ensures RunningHasTask(Step(m, input))
  {
    match input
    case StartCmd(_, _, _) =>
    case StopCmd(_) =>
    case StatusCmd =>
    case Tick(_, _, _) =>
  }

  /** However the world interleaves starts, stops, status queries and timer
      callbacks, a running capture is never left without a run to finish it. */
  lemma {:induction false} RunKeepsRunningHasTask(m: Machine, inputs: seq<Input>)
    requires RunningHasTask(m)
    ensures RunningHasTask(Run(m, inputs))
    decreases |inputs|
  {
    if |inputs| > 0 {
      StepKeepsRunningHasTask(m, inputs[0]);
      RunKeepsRunningHasTask(Step(m, inputs[0]), inputs[1..]);
    }
  }

  /** After a stop, a status query reports the capture as not running, with
      the same page, total, article count and start time as before. */
  lemma StatusAfterStop(m: Machine, now: int)
    ensures var m' := Run(m, [StopCmd(now), StatusCmd]);
            && m'.trace[|m'.trace| - 1] == StatusReply(GetStatus(m.st).(isRunning := false))
            && m'.tasks == m.tasks
  {
    var m1 := Step(m, StopCmd(now));
    assert Run(m, [StopCmd(now), StatusCmd]) == Run(m1, [StatusCmd]);
    assert Run(m1, [StatusCmd]) == Run(Step(m1, StatusCmd), []);
  }
}

/** Worked runs of the capture engine on small, concrete page sequences. */
module CaptureScenarios {
  import opened JsValue
  import opened Pagination
  import opened Capture

  /** A list page showing one article, with a next button that is usable
      exactly when `hasNext` holds. */
  function ListPage(article: Js, hasNext: bool): PageSnapshot
  {
    PageSnapshot(Some(PaginationBar(None, [], [Button(NextPageLabel, false, false, !hasNext)])),
                 Some(Obj(map["publish_list" := Arr([article])])),
                 false)
  }

  /** The same page before its data has arrived. */
  function Loading(hasNext: bool): PageSnapshot
  {
    ListPage(Null, hasNext).(wxData := None)
  }

  const OnlyComplete: Callbacks := Callbacks(false, true, false)

  lemma ListPageFacts(article: Js, hasNext: bool)
    ensures PageArticles(ListPage(article, hasNext).wxData.value) == [article]
    ensures DetectPagination(ListPage(article, hasNext).bar)
            == Some(PaginationInfo(Some(1), 1, hasNext))
    ensures DetectPagination(Loading(hasNext).bar) == DetectPagination(ListPage(article, hasNext).bar)
  {
    assert Contains(NextPageLabel, NextPageLabel) by {
      assert IsPrefix(NextPageLabel, NextPageLabel);
    }
  }

  /** Capturing a page that has a next button appends its article and
      schedules the click. */
  lemma CaptureThenClick(st: PState, site: CaptureSite, waitStart: int, checks: nat, article: Js, now: int)
    requires st.isRunning && !st.callbacks.onProgress
    ensures Poll(st, site, waitStart, checks, ListPage(article, true), now)
            == Segment(st.(collected := st.collected + [article]), [], Some(Clicking))
  {
    ListPageFacts(article, true);
  }

  /** Capturing the last page appends its article and completes the run. */
  lemma CaptureThenComplete(st: PState, site: CaptureSite, waitStart: int, checks: nat, article: Js, now: int)
    requires st.isRunning && !st.callbacks.onProgress
    ensures Poll(st, site, waitStart, checks, ListPage(article, false), now)
            == Complete(st.(collected := st.collected + [article]), now)
  {
    ListPageFacts(article, false);
  }

  /** A tick for the only pending run resumes it and parks what it suspends at. */
  lemma TickOnly(m: Machine, page: PageSnapshot, now: int)
    requires |m.tasks| == 1
    ensures var seg := Resume(m.tasks[0], m.st, page, now);
            Step(m, Tick(0, page, now)) == Machine(seg.st, Park(seg.next), m.trace + seg.events)
  {
    assert m.tasks[1..] == [];
  }

  lemma StartOnFirstPage(a: Js)
    ensures Step(InitialMachine, StartCmd(OnlyComplete, ListPage(a, true), 0))
            == Machine(PState(true, Some(1), 1, [a], Some(0), OnlyComplete), [Clicking], [])
  {
    var st := PState(true, Some(1), 1, [a], Some(0), OnlyComplete);
    assert Start(InitialState, OnlyComplete, ListPage(a, true), 0) == Segment(st, [], Some(Clicking)) by {
      ListPageFacts(a, true);
      CaptureThenClick(PState(true, Some(1), 1, [], Some(0), OnlyComplete), FromStart, 0, 0, a, 0);
    }
  }

  lemma ClickStep(m: Machine, page: PageSnapshot, now: int)
    requires m.tasks == [Clicking] && !m.st.callbacks.onProgress
    ensures Step(m, Tick(0, page, now))
            == Machine(m.st.(currentPage := NextPageNo(m.st.currentPage)), [Settling], m.trace)
  {
  }

  lemma SettleThenCaptureStep(m: Machine, article: Js, now: int)
    requires m.tasks == [Settling] && m.st.isRunning && !m.st.callbacks.onProgress
    ensures Step(m, Tick(0, ListPage(article, true), now))
            == Machine(m.st.(collected := m.st.collected + [article]), [Clicking], m.trace)
  {
    TickOnly(m, ListPage(article, true), now);
    var seg := Resume(Settling, m.st, ListPage(article, true), now);
    assert seg == Segment(m.st.(collected := m.st.collected + [article]), [], Some(Clicking)) by {
      CaptureThenClick(m.st, FromLoop, now, 0, article, now);
    }
    assert m.trace + seg.events == m.trace;
  }

  lemma SettleThenFinishStep(m: Machine, article: Js, now: int)
    requires m.tasks == [Settling] && m.st.isRunning && !m.st.callbacks.onProgress
    ensures var st := m.st.(collected := m.st.collected + [article]);
            Step(m, Tick(0, ListPage(article, false), now))
            == Machine(Complete(st, now).st, [], m.trace + Complete(st, now).events)
  {
    TickOnly(m, ListPage(article, false), now);
    var seg := Resume(Settling, m.st, ListPage(article, false), now);
    assert seg == Complete(m.st.(collected := m.st.collected + [article]), now) by {
      CaptureThenComplete(m.st, FromLoop, now, 0, article, now);
    }
  }

  lemma LastOfThree(a: Js, b: Js, c: Js)
    ensures var st := PState(true, Some(3), 1, [a, b], Some(0), OnlyComplete);
            Step(Machine(st, [Settling], []), Tick(0, ListPage(c, false), 3000))
            == Machine(st.(isRunning := false, collected := [a, b, c]), [],
                       [CompleteEvent(CaptureResult([a, b, c], 3, Some(3), Some(3), false))])
  {
    var st := PState(true, Some(3), 1, [a, b], Some(0), OnlyComplete);
    SettleThenFinishStep(Machine(st, [Settling], []), c, 3000);
    assert st.collected + [c] == [a, b, c];
    assert RoundedSeconds(3000 - 0) == 3;
  }

  /** Three pages whose data is present when read: every page is captured
      once, in order, and the run completes on the page without a next
      button, reporting three pages and the elapsed seconds. */
  lemma ThreePagesCapturedInOrder(a: Js, b: Js, c: Js)
    ensures var m := Run(InitialMachine, [
                       StartCmd(OnlyComplete, ListPage(a, true), 0),
                       Tick(0, ListPage(a, true), 500),
                       Tick(0, ListPage(b, true), 1500),
                       Tick(0, ListPage(b, true), 2000),
                       Tick(0, ListPage(c, false), 3000)]);
            && !m.st.isRunning
            && m.tasks == []
            && m.trace == [CompleteEvent(CaptureResult([a, b, c], 3, Some(3), Some(3), false))]
  {
    var m1 := Machine(PState(true, Some(1), 1, [a], Some(0), OnlyComplete), [Clicking], []);
    var m2 := Machine(PState(true, Some(2), 1, [a], Some(0), OnlyComplete), [Settling], []);
    var m3 := Machine(PState(true, Some(2), 1, [a, b], Some(0), OnlyComplete), [Clicking], []);
    var m4 := Machine(PState(true, Some(3), 1, [a, b], Some(0), OnlyComplete), [Settling], []);
    var m5 := Machine(PState(false, Some(3), 1, [a, b, c], Some(0), OnlyComplete), [],
                      [CompleteEvent(CaptureResult([a, b, c], 3, Some(3), Some(3), false))]);
    StartOnFirstPage(a);
    ClickToPage(m1, m2, ListPage(a, true), 500);
    SecondPageCaptured(m2, m3, a, b);
    ClickToPage(m3, m4, ListPage(b, true), 2000);
    LastOfThree(a, b, c);
    RunFive(InitialMachine, m1, m2, m3, m4, m5,
            StartCmd(OnlyComplete, ListPage(a, true), 0), Tick(0, ListPage(a, true), 500),
            Tick(0, ListPage(b, true), 1500), Tick(0, ListPage(b, true), 2000),
            Tick(0, ListPage(c, false), 3000));
  }

  /** A click from page `n` of the scenario moves to page `n + 1`. */
  lemma ClickToPage(m: Machine, m': Machine, page: PageSnapshot, now: int)
    requires m.tasks == [Clicking] && !m.st.callbacks.onProgress && m.st.currentPage.Some?
    requires m' == Machine(m.st.(currentPage := Some(m.st.currentPage.value + 1)), [Settling], m.trace)
    ensures Step(m, Tick(0, page, now)) == m'
  {
    ClickStep(m, page, now);
  }

  lemma SecondPageCaptured(m2: Machine, m3: Machine, a: Js, b: Js)
    requires m2 == Machine(PState(true, Some(2), 1, [a], Some(0), OnlyComplete), [Settling], [])
    requires m3 == Machine(PState(true, Some(2), 1, [a, b], Some(0), OnlyComplete), [Clicking], [])
    ensures Step(m2, Tick(0, ListPage(b, true), 1500)) == m3
  {
    SettleThenCaptureStep(m2, b, 1500);
    assert m2.st.collected + [b] == [a, b];
  }

  /** `Run` over five inputs is five steps. */
  lemma RunFive(m0: Machine, m1: Machine, m2: Machine, m3: Machine, m4: Machine, m5: Machine,
                i0: Input, i1: Input, i2: Input, i3: Input, i4: Input)
    requires Step(m0, i0) == m1 && Step(m1, i1) == m2 && Step(m2, i2) == m3
    requires Step(m3, i3) == m4 && Step(m4, i4) == m5
    ensures Run(m0, [i0, i1, i2, i3, i4]) == m5
  {
    RunCons(m0, i0, [i1, i2, i3, i4]);
    RunCons(m1, i1, [i2, i3, i4]);
    RunCons(m2, i2, [i3, i4]);
    RunCons(m3, i3, [i4]);
    RunCons(m4, i4, []);
  }

  lemma RunCons(m: Machine, first: Input, rest: seq<Input>)
    ensures Run(m, [first] + rest) == Run(Step(m, first), rest)
  {
    assert ([first] + rest)[1..] == rest;
  }
}
