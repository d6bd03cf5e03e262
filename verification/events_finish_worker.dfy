/** `FennecEventsFinishWorker`: what happens when a method finishes — a
    thread-visualizer data set, the end events, and the timer clean-up. */
module EventsFinishWorker {
  import opened JavaInt

  /** The least span of a visualizer bar, in milliseconds. */
  const MIN_SPAN: int := 10

  /** A bar of the thread visualizer; times are `long` milliseconds. */
  datatype DataSet = DataSet(threadName: string, content: string, start: int, end: int)

  /** `addThreadVisualizerDataSet`: a span of at most 10 ms (as `long`
      arithmetic computes it) is widened to start + 10. */
  function VisualizerDataSet(threadName: string, content: string, start: int, end: int): (d: DataSet)
    requires IsInt64(start) && IsInt64(end)
    ensures d.threadName == threadName && d.content == content && d.start == start && IsInt64(d.end)
    ensures Wrap64(d.end - d.start) >= MIN_SPAN
    ensures Wrap64(end - start) > MIN_SPAN <==> d.end == end && Wrap64(d.end - d.start) > MIN_SPAN
    ensures Wrap64(end - start) > MIN_SPAN ==> d.end == end
    ensures Wrap64(end - start) <= MIN_SPAN ==> d.end == Wrap64(start + MIN_SPAN)
  {
    var endTime := if Wrap64(end - start) <= MIN_SPAN then Wrap64(start + MIN_SPAN) else end;
    if Wrap64(end - start) <= MIN_SPAN then
      SpanAfterWidening(start);
      DataSet(threadName, content, start, endTime)
    else DataSet(threadName, content, start, endTime)
  }

  /** Widening gives a span of exactly 10, even when start + 10 overflows. */
  lemma SpanAfterWidening(start: int)
    ensures Wrap64(Wrap64(start + MIN_SPAN) - start) == MIN_SPAN
  {
    Wrap64Add(start + MIN_SPAN, -start);
    assert start + MIN_SPAN + -start == MIN_SPAN;
  }

  /** Widening is idempotent: a bar built from a bar is the same bar. */
  lemma VisualizerDataSetIdempotent(threadName: string, content: string, start: int, end: int)
    requires IsInt64(start) && IsInt64(end)
    ensures var d := VisualizerDataSet(threadName, content, start, end);
            VisualizerDataSet(threadName, content, d.start, d.end) == d
  {
    var d := VisualizerDataSet(threadName, content, start, end);
    if Wrap64(end - start) <= MIN_SPAN {
      SpanAfterWidening(start);
    }
  }

  // ---------------------------------------------------------------- events

  /** The events `run` fires; time stamps and the TestNG objects attached
      to them are left out. */
  datatype Event =
    | TestMethodEnd(methodName: string, status: int, duration: int)
    | TestWithFilteredThrowable(methodName: string)
    | FirstFailedTest(methodName: string)
    | ConfigurationMethodEnd(methodName: string, status: int)

  /** The effects of `run`, in the order they happen. */
  datatype Effect = AddDataSet(dataSet: DataSet) | Fire(event: Event) | CleanMethodTimer

  /** What `run` reads: whether the method was invoked, whether it is a
      test, its status, and the answers of `RetryAnalyzer` and
      `TestStatusController`, which are given. */
  datatype FinishedMethod = FinishedMethod(
    invoked: bool, isTest: bool, failed: bool, status: int,
    methodName: string, threadName: string, content: string,
    start: int, end: int,
    hasFilteredThrowable: bool, allTestsPassedYet: bool)

  predicate ValidTimes(m: FinishedMethod) {
    IsInt64(m.start) && IsInt64(m.end)
  }

  function EndEvents(m: FinishedMethod): (events: seq<Event>)
    requires ValidTimes(m)
    ensures |events| > 0 && |events| <= 3
    ensures m.isTest ==> events[0] == TestMethodEnd(m.methodName, m.status, Wrap64(m.end - m.start))
    ensures !m.isTest ==> events == [ConfigurationMethodEnd(m.methodName, m.status)]
  {
    if m.isTest then
      [TestMethodEnd(m.methodName, m.status, Wrap64(m.end - m.start))]
      + (if m.failed && m.hasFilteredThrowable then [TestWithFilteredThrowable(m.methodName)] else [])
      + (if m.failed && m.allTestsPassedYet then [FirstFailedTest(m.methodName)] else [])
    else [ConfigurationMethodEnd(m.methodName, m.status)]
  }

  /** `run`. */
  function Run(m: FinishedMethod): (effects: seq<Effect>)
    requires ValidTimes(m)
    ensures |effects| > 0 && effects[|effects| - 1] == CleanMethodTimer
    ensures !m.invoked ==> effects == [CleanMethodTimer]
    ensures m.invoked ==> effects[0] == AddDataSet(VisualizerDataSet(m.threadName, m.content, m.start, m.end))
    ensures m.invoked ==> |effects| == |EndEvents(m)| + 2
                          && forall k :: 0 <= k < |EndEvents(m)| ==> effects[k + 1] == Fire(EndEvents(m)[k])
  {
    if m.invoked then
      [AddDataSet(VisualizerDataSet(m.threadName, m.content, m.start, m.end))]
      + seq(|EndEvents(m)|, k requires 0 <= k < |EndEvents(m)| => Fire(EndEvents(m)[k]))
      + [CleanMethodTimer]
    else [CleanMethodTimer]
  }

  /** The events fired, in order. */
  function Fired(effects: seq<Effect>): (events: seq<Event>)
    ensures |events| <= |effects|
    ensures forall e :: e in events <==> Fire(e) in effects
  {
    if |effects| == 0 then []
    else
      var rest := Fired(effects[1..]);
      assert forall e :: Fire(e) in effects <==> effects[0] == Fire(e) || Fire(e) in effects[1..] by {
        assert effects == [effects[0]] + effects[1..];
      }
      if effects[0].Fire? then [effects[0].event] + rest else rest
  }

  /** A method that was not invoked fires nothing, and the timer is still
      cleaned. */
  lemma NotInvokedFiresNothing(m: FinishedMethod)
    requires ValidTimes(m) && !m.invoked
    ensures Fired(Run(m)) == [] && Run(m) == [CleanMethodTimer]
  {
  }

  /** An invoked method fires exactly its end events, in order. */
  lemma {:induction false} InvokedFiresEndEvents(m: FinishedMethod)
    requires ValidTimes(m) && m.invoked
    ensures Fired(Run(m)) == EndEvents(m)
  {
    var effects := Run(m);
    var events := EndEvents(m);
    FiredOfFires(events);
    var fires := seq(|events|, k requires 0 <= k < |events| => Fire(events[k]));
    assert effects == [effects[0]] + (fires + [CleanMethodTimer]);
    assert effects[1..] == fires + [CleanMethodTimer];
    FiredAppend(fires, [CleanMethodTimer]);
  }

  lemma {:induction false} FiredOfFires(events: seq<Event>)
    ensures Fired(seq(|events|, k requires 0 <= k < |events| => Fire(events[k]))) == events
  {
    var fires := seq(|events|, k requires 0 <= k < |events| => Fire(events[k]));
    if |events| > 0 {
      assert fires[1..] == seq(|events[1..]|, k requires 0 <= k < |events[1..]| => Fire(events[1..][k]));
      FiredOfFires(events[1..]);
      assert events == [events[0]] + events[1..];
    }
  }

  lemma {:induction false} FiredAppend(a: seq<Effect>, b: seq<Effect>)
    ensures Fired(a + b) == Fired(a) + Fired(b)
  {
    if |a| > 0 {
      assert (a + b)[0] == a[0] && (a + b)[1..] == a[1..] + b;
      FiredAppend(a[1..], b);
      var head := if a[0].Fire? then [a[0].event] else [];
      assert Fired(a) == head + Fired(a[1..]);
      assert Fired(a + b) == head + Fired(a[1..] + b);
    } else {
      assert a + b == b;
    }
  }

  /** A test fires `TEST_METHOD_END` first, with the span before widening;
      the filtered-throwable event iff it failed with a filtered throwable;
      the first-failure event iff it failed while all tests had passed, and
      then as the last event. */
  lemma TestEvents(m: FinishedMethod)
    requires ValidTimes(m) && m.invoked && m.isTest
    ensures var events := Fired(Run(m));
            events[0] == TestMethodEnd(m.methodName, m.status, Wrap64(m.end - m.start))
            && (TestWithFilteredThrowable(m.methodName) in events <==> m.failed && m.hasFilteredThrowable)
            && (FirstFailedTest(m.methodName) in events <==> m.failed && m.allTestsPassedYet)
            && (m.failed && m.allTestsPassedYet ==> events[|events| - 1] == FirstFailedTest(m.methodName))
            && forall e :: e in events ==> !e.ConfigurationMethodEnd?
  {
    InvokedFiresEndEvents(m);
  }

  /** A configuration method fires only `CONFIGURATION_METHOD_END`. */
  lemma ConfigurationEvents(m: FinishedMethod)
    requires ValidTimes(m) && m.invoked && !m.isTest
    ensures Fired(Run(m)) == [ConfigurationMethodEnd(m.methodName, m.status)]
  {
    InvokedFiresEndEvents(m);
  }
}
