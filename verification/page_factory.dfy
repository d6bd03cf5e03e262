/** `PageFactory.loadPO` for one thread: the rejection of a page handed over
    as page variables, the pages-prefix choice, construction and page check
    with the error-handler flow, and the FIFO loop detector. */
module PageFactory {
  import opened Wrappers

  datatype Throwable = Throwable(message: string)

  /** The `pageVariables` argument: `null`, an ordinary `PageVariables`
      object, or one that is itself a `Page`. */
  datatype PageVariables = NoVariables | Variables(className: string) | PageAsVariables

  /** The two page checks `loadPO` can run. */
  datatype CheckCall = CheckPage | CheckPageInverse

  /** What the user's error handler does with the throwable. */
  datatype ErrorHandler = ThrowsOwn(own: Throwable) | ReturnsNormally

  /** The static and thread-local state `loadPO` reads and writes. A `None`
      buffer is one not yet created in this thread; a `None` method
      context is a thread without a current one. */
  datatype FactoryState = FactoryState(
    globalPagesPrefix: Option<string>,
    threadLocalPagesPrefix: Option<string>,
    errorHandler: Option<ErrorHandler>,
    loopBuffer: Option<seq<string>>,
    methodContext: Option<ContextRecord>)

  /** The part of a method context this model follows: the message of the
      throwable recorded in it, if any. */
  datatype ContextRecord = ContextRecord(throwable: Option<string>)

  /** What the unseen collaborators do on this call: the class that
      `ClassFinder` picks, whether construction fails, and what the page
      check throws for a given check call. */
  datatype Environment = Environment(
    bestMatchingClass: (string, Option<string>) -> string,
    simpleName: string -> string,
    constructionFailure: Option<Throwable>,
    checkFailure: CheckCall -> Option<Throwable>)

  const PAGE_AS_VARIABLES: string :=
    "You cannot hand over a page to a page. This is a bad design and also may produce looping. "
    + "You can make page compositions with a) static modules (Page xyzPage = PageFactory.create(...) inside a page class) "
    + "or b) dynamic modules (public XyzPage xyz() {return PageFactory.create(...)} )."
  const COULD_NOT_CREATE: string := "Could not create instance of page class "
  const LOOP_DETECTED: string := "PageFactory create loop detected loading: "

  /** The thread-local prefix wins when it is non-empty. */
  function PagesPrefix(globalPagesPrefix: Option<string>, threadLocalPagesPrefix: Option<string>): (prefix: Option<string>)
    ensures !(threadLocalPagesPrefix.Some? && |threadLocalPagesPrefix.value| > 0) ==> prefix == globalPagesPrefix
    ensures threadLocalPagesPrefix.Some? && |threadLocalPagesPrefix.value| > 0 ==> prefix == threadLocalPagesPrefix
  {
    if threadLocalPagesPrefix.Some? && |threadLocalPagesPrefix.value| > 0 then threadLocalPagesPrefix
    else globalPagesPrefix
  }

  // ------------------------------------------------------------ loop buffer

  /** `CircularFifoBuffer.add`: when full, the oldest entry makes room. */
  function Push(buffer: seq<string>, className: string, capacity: nat): (r: seq<string>)
    requires 0 < capacity && |buffer| <= capacity
    ensures |r| == if |buffer| < capacity then |buffer| + 1 else capacity
    ensures r == (buffer + [className])[|buffer| + 1 - |r|..]
  {
    if |buffer| == capacity then
      assert buffer[1..] + [className] == (buffer + [className])[1..];
      buffer[1..] + [className]
    else
      assert buffer + [className] == (buffer + [className])[0..];
      buffer + [className]
  }

  /** The distinct entries of a list, in order of first appearance (the
      `classesInQueue` list). */
  function Distinct(xs: seq<string>): (r: seq<string>)
    ensures forall x :: x in r <==> x in xs
    ensures forall k, l :: 0 <= k < l < |r| ==> r[k] != r[l]
    ensures |xs| > 0 ==> |r| > 0 && r[0] == xs[0]
  {
    if |xs| == 0 then []
    else
      var init := Distinct(xs[..|xs| - 1]);
      assert forall x :: x in xs[..|xs| - 1] ==> x in xs;
      assert forall x :: x in xs ==> x in xs[..|xs| - 1] || x == xs[|xs| - 1];
      if xs[|xs| - 1] in init then init
      else
        assert |xs| > 1 ==> xs[0] == xs[..|xs| - 1][0];
        init + [xs[|xs| - 1]]
  }

  /** Only one class in the list. */
  predicate AllSameClass(xs: seq<string>) {
    |xs| > 0 && forall i :: 0 <= i < |xs| ==> xs[i] == xs[0]
  }

  /** The detector's test `classesInQueue.size() == 1` means every entry
      has the same class. */
  lemma DistinctSingleIffSame(xs: seq<string>)
    ensures |Distinct(xs)| == 1 <==> AllSameClass(xs)
  {
    var r := Distinct(xs);
    if |r| == 1 {
      forall i | 0 <= i < |xs| ensures xs[i] == xs[0] {
        assert xs[i] in r;
      }
    }
    if AllSameClass(xs) {
      forall k | 0 <= k < |r| ensures r[k] == xs[0] {
        assert r[k] in xs;
      }
    }
  }

  /** The loop error, if the buffer after adding the new page is full and
      holds one class only. */
  function DetectLoop(buffer: seq<string>, nrOfLoops: nat): (r: Option<Throwable>)
    ensures r.Some? <==> |buffer| == nrOfLoops && AllSameClass(buffer)
    ensures r.Some? ==> r.value == Throwable(LOOP_DETECTED + buffer[0])
  {
    DistinctSingleIffSame(buffer);
    if |buffer| == nrOfLoops then
      var classesInQueue := Distinct(buffer);
      if |classesInQueue| == 1 then Some(Throwable(LOOP_DETECTED + classesInQueue[0])) else None
    else None
  }

  /** The buffer after adding a page of class `className`, creating the
      buffer on first use. */
  function RecordPage(loopBuffer: Option<seq<string>>, className: string, nrOfLoops: nat): (buffer: seq<string>)
    requires nrOfLoops > 0
    requires loopBuffer.Some? ==> |loopBuffer.value| <= nrOfLoops
    ensures 0 < |buffer| <= nrOfLoops && buffer[|buffer| - 1] == className
    ensures var previous := if loopBuffer.Some? then loopBuffer.value else [];
            |buffer| == (if |previous| < nrOfLoops then |previous| + 1 else nrOfLoops)
            && buffer == (previous + [className])[|previous| + 1 - |buffer|..]
  {
    Push(if loopBuffer.Some? then loopBuffer.value else [], className, nrOfLoops)
  }

  // ---------------------------------------------------------------- loadPO

  datatype LoadOutcome = LoadOutcome(state: FactoryState, checked: Option<CheckCall>, page: Result<string, Throwable>)

  /** What the error-handler flow throws, and what it records in the method
      context (only when the thread has one), for the throwable of a
      failed construction or check. */
  function HandleFailure(state: FactoryState, overAllThrowable: Throwable): (r: (FactoryState, Throwable))
    ensures r.1 == if state.errorHandler.Some? && state.errorHandler.value.ThrowsOwn?
                   then state.errorHandler.value.own else overAllThrowable
    ensures r.0.methodContext
            == if state.errorHandler.Some? && state.errorHandler.value.ThrowsOwn? && state.methodContext.Some?
               then Some(ContextRecord(Some(state.errorHandler.value.own.message))) else state.methodContext
    ensures r.0 == state.(methodContext := r.0.methodContext)
  {
    match state.errorHandler
    case Some(ThrowsOwn(e)) =>
      (if state.methodContext.Some? then state.(methodContext := Some(ContextRecord(Some(e.message)))) else state, e)
    case _ => (state, overAllThrowable)
  }

  /** The page check of a constructed page of class `resolved`, then, if it
      passes, the loop detection. */
  function CheckAndRecord(state: FactoryState, env: Environment, nrOfLoops: nat, resolved: string, check: CheckCall): (r: LoadOutcome)
    requires nrOfLoops > 0
    requires state.loopBuffer.Some? ==> |state.loopBuffer.value| <= nrOfLoops
    ensures r.checked == Some(check)
    ensures env.checkFailure(check).Some? ==>
              r.state.loopBuffer == state.loopBuffer
              && r.page == Err(HandleFailure(state, env.checkFailure(check).value).1)
    ensures env.checkFailure(check).None? ==>
              r.state.loopBuffer == Some(RecordPage(state.loopBuffer, resolved, nrOfLoops))
              && (r.page.Err? <==> DetectLoop(r.state.loopBuffer.value, nrOfLoops).Some?)
    ensures r.state.globalPagesPrefix == state.globalPagesPrefix
            && r.state.threadLocalPagesPrefix == state.threadLocalPagesPrefix
            && r.state.errorHandler == state.errorHandler
    ensures r.state.loopBuffer.Some? ==> |r.state.loopBuffer.value| <= nrOfLoops
  {
    match env.checkFailure(check)
    case Some(thrown) => CheckFailed(state, check, thrown)
    case None => CheckPassed(state, nrOfLoops, resolved, check)
  }

  /** A failed page check: the error-handler flow, the buffer untouched. */
  function CheckFailed(state: FactoryState, check: CheckCall, thrown: Throwable): (r: LoadOutcome)
    ensures r.checked == Some(check)
    ensures r.state == HandleFailure(state, thrown).0 && r.page == Err(HandleFailure(state, thrown).1)
    ensures r.state.loopBuffer == state.loopBuffer
  {
    var handled := HandleFailure(state, thrown);
    LoadOutcome(handled.0, Some(check), Err(handled.1))
  }

  /** A passed page check: the page is recorded, then the loop detection
      decides. */
  function CheckPassed(state: FactoryState, nrOfLoops: nat, resolved: string, check: CheckCall): (r: LoadOutcome)
    requires nrOfLoops > 0
    requires state.loopBuffer.Some? ==> |state.loopBuffer.value| <= nrOfLoops
    ensures r.checked == Some(check)
    ensures r.state == state.(loopBuffer := Some(RecordPage(state.loopBuffer, resolved, nrOfLoops)))
    ensures r.page.Err? <==> DetectLoop(r.state.loopBuffer.value, nrOfLoops).Some?
    ensures |r.state.loopBuffer.value| <= nrOfLoops
  {
    var buffer := RecordPage(state.loopBuffer, resolved, nrOfLoops);
    var s := state.(loopBuffer := Some(buffer));
    var page := if DetectLoop(buffer, nrOfLoops).Some? then Err(DetectLoop(buffer, nrOfLoops).value) else Ok(resolved);
    LoadOutcome(s, Some(check), page)
  }

  /** `loadPO`. */
  function LoadPO(state: FactoryState, env: Environment, nrOfLoops: nat, pageClass: string,
                  pageVariables: PageVariables, positiveCheck: bool): (r: LoadOutcome)
    requires nrOfLoops > 0
    requires state.loopBuffer.Some? ==> |state.loopBuffer.value| <= nrOfLoops
    ensures pageVariables.PageAsVariables? ==>
              r == LoadOutcome(state, None, Err(Throwable(PAGE_AS_VARIABLES)))
    ensures r.checked.Some? ==> r.checked.value == (if positiveCheck then CheckPage else CheckPageInverse)
    ensures r.state.globalPagesPrefix == state.globalPagesPrefix
            && r.state.threadLocalPagesPrefix == state.threadLocalPagesPrefix
            && r.state.errorHandler == state.errorHandler
    ensures r.state.loopBuffer.Some? ==> |r.state.loopBuffer.value| <= nrOfLoops
  {
    if pageVariables.PageAsVariables? then
      LoadOutcome(state, None, Err(Throwable(PAGE_AS_VARIABLES)))
    else
      var pagesPrefix := PagesPrefix(state.globalPagesPrefix, state.threadLocalPagesPrefix);
      var resolved := env.bestMatchingClass(pageClass, pagesPrefix);
      if env.constructionFailure.Some? then
        var handled := HandleFailure(state, Throwable(COULD_NOT_CREATE + env.simpleName(resolved)));
        LoadOutcome(handled.0, None, Err(handled.1))
      else
        CheckAndRecord(state, env, nrOfLoops, resolved, if positiveCheck then CheckPage else CheckPageInverse)
  }

  /** `create`: the positive check. */
  function Create(state: FactoryState, env: Environment, nrOfLoops: nat, pageClass: string, pageVariables: PageVariables): (r: LoadOutcome)
    requires nrOfLoops > 0
    requires state.loopBuffer.Some? ==> |state.loopBuffer.value| <= nrOfLoops
    ensures r.checked.Some? ==> r.checked.value == CheckPage
  {
    LoadPO(state, env, nrOfLoops, pageClass, pageVariables, true)
  }

  /** `checkNot`: `checkPage(true, false)`. */
  function CheckNot(state: FactoryState, env: Environment, nrOfLoops: nat, pageClass: string, pageVariables: PageVariables): (r: LoadOutcome)
    requires nrOfLoops > 0
    requires state.loopBuffer.Some? ==> |state.loopBuffer.value| <= nrOfLoops
    ensures r.checked.Some? ==> r.checked.value == CheckPageInverse
  {
    LoadPO(state, env, nrOfLoops, pageClass, pageVariables, false)
  }

  /** The prefix passed to the class finder is the thread-local one iff that
      is non-empty. */
  lemma ThreadLocalPrefixOverrides(state: FactoryState, env: Environment, nrOfLoops: nat, pageClass: string,
                                   pageVariables: PageVariables, positiveCheck: bool)
    requires nrOfLoops > 0
    requires state.loopBuffer.Some? ==> |state.loopBuffer.value| <= nrOfLoops
    requires !pageVariables.PageAsVariables?
    requires env.constructionFailure.None? && env.checkFailure(if positiveCheck then CheckPage else CheckPageInverse).None?
    ensures var r := LoadPO(state, env, nrOfLoops, pageClass, pageVariables, positiveCheck);
            var buffer := r.state.loopBuffer.value;
            r.state.loopBuffer.Some? && |buffer| > 0
            && buffer[|buffer| - 1] == env.bestMatchingClass(pageClass,
                 if state.threadLocalPagesPrefix.Some? && state.threadLocalPagesPrefix.value != [] then state.threadLocalPagesPrefix
                 else state.globalPagesPrefix)
  {
    var resolved := env.bestMatchingClass(pageClass, PagesPrefix(state.globalPagesPrefix, state.threadLocalPagesPrefix));
    var check := if positiveCheck then CheckPage else CheckPageInverse;
    assert LoadPO(state, env, nrOfLoops, pageClass, pageVariables, positiveCheck)
           == CheckPassed(state, nrOfLoops, resolved, check);
    PassedBuffer(state, nrOfLoops, resolved, check);
  }

  /** A failed construction or page check never touches the loop buffer;
      the throwable that leaves `loadPO` is the handler's own one if it
      throws, and the original one otherwise. */
  lemma FailureLeavesBuffer(state: FactoryState, env: Environment, nrOfLoops: nat, pageClass: string,
                            pageVariables: PageVariables, positiveCheck: bool)
    requires nrOfLoops > 0
    requires state.loopBuffer.Some? ==> |state.loopBuffer.value| <= nrOfLoops
    requires !pageVariables.PageAsVariables?
    ensures var check := if positiveCheck then CheckPage else CheckPageInverse;
            var r := LoadPO(state, env, nrOfLoops, pageClass, pageVariables, positiveCheck);
            env.constructionFailure.Some? || env.checkFailure(check).Some? ==>
              r.state.loopBuffer == state.loopBuffer
              && r.page.Err?
              && (state.errorHandler.Some? && state.errorHandler.value.ThrowsOwn? ==>
                    r.page.error == state.errorHandler.value.own)
              && (state.errorHandler.None? || state.errorHandler.value.ReturnsNormally? ==>
                    r.page.error == (if env.constructionFailure.Some?
                                     then Throwable(COULD_NOT_CREATE + env.simpleName(env.bestMatchingClass(pageClass,
                                            PagesPrefix(state.globalPagesPrefix, state.threadLocalPagesPrefix))))
                                     else env.checkFailure(check).value))
  {
  }

  /** A successful load adds the page's class as the newest buffer entry
      before detection, keeps the most recent `nrOfLoops` entries, and fails
      exactly when the full buffer holds one class only. */
  lemma SuccessfulLoadBuffer(state: FactoryState, env: Environment, nrOfLoops: nat, pageClass: string,
                             pageVariables: PageVariables, positiveCheck: bool)
    requires nrOfLoops > 0
    requires state.loopBuffer.Some? ==> |state.loopBuffer.value| <= nrOfLoops
    requires !pageVariables.PageAsVariables?
    requires env.constructionFailure.None? && env.checkFailure(if positiveCheck then CheckPage else CheckPageInverse).None?
    ensures var previous := if state.loopBuffer.Some? then state.loopBuffer.value else [];
            var r := LoadPO(state, env, nrOfLoops, pageClass, pageVariables, positiveCheck);
            var buffer := r.state.loopBuffer.value;
            r.state.loopBuffer.Some?
            && |buffer| == (if |previous| < nrOfLoops then |previous| + 1 else nrOfLoops)
            && buffer == (previous + [buffer[|buffer| - 1]])[|previous| + 1 - |buffer|..]
            && (r.page.Err? <==> |buffer| == nrOfLoops && AllSameClass(buffer))
  {
    var resolved := env.bestMatchingClass(pageClass, PagesPrefix(state.globalPagesPrefix, state.threadLocalPagesPrefix));
    var check := if positiveCheck then CheckPage else CheckPageInverse;
    assert LoadPO(state, env, nrOfLoops, pageClass, pageVariables, positiveCheck)
           == CheckPassed(state, nrOfLoops, resolved, check);
    PassedBuffer(state, nrOfLoops, resolved, check);
  }

  /** The buffer a passed check leaves, and when it reports a loop. */
  lemma PassedBuffer(state: FactoryState, nrOfLoops: nat, resolved: string, check: CheckCall)
    requires nrOfLoops > 0
    requires state.loopBuffer.Some? ==> |state.loopBuffer.value| <= nrOfLoops
    ensures var previous := if state.loopBuffer.Some? then state.loopBuffer.value else [];
            var r := CheckPassed(state, nrOfLoops, resolved, check);
            var buffer := r.state.loopBuffer.value;
            r.state.loopBuffer.Some?
            && |buffer| == (if |previous| < nrOfLoops then |previous| + 1 else nrOfLoops)
            && buffer[|buffer| - 1] == resolved
            && buffer == (previous + [resolved])[|previous| + 1 - |buffer|..]
            && (r.page.Err? <==> |buffer| == nrOfLoops && AllSameClass(buffer))
  {
  }

  /** A sequence of load requests against one thread's state. */
  datatype Request = Request(env: Environment, pageClass: string, pageVariables: PageVariables, positiveCheck: bool)

  function Run(state: FactoryState, nrOfLoops: nat, requests: seq<Request>): (r: FactoryState)
    requires nrOfLoops > 0
    requires state.loopBuffer.Some? ==> |state.loopBuffer.value| <= nrOfLoops
    ensures r.loopBuffer.Some? ==> |r.loopBuffer.value| <= nrOfLoops
  {
    if |requests| == 0 then state
    else
      var before := Run(state, nrOfLoops, requests[..|requests| - 1]);
      var q := requests[|requests| - 1];
      LoadPO(before, q.env, nrOfLoops, q.pageClass, q.pageVariables, q.positiveCheck).state
  }

  function BufferSize(state: FactoryState): nat {
    if state.loopBuffer.Some? then |state.loopBuffer.value| else 0
  }

  /** The buffer grows by at most one entry per load. */
  lemma {:induction false} BufferAtMostLoads(state: FactoryState, nrOfLoops: nat, requests: seq<Request>)
    requires nrOfLoops > 0
    requires state.loopBuffer.Some? ==> |state.loopBuffer.value| <= nrOfLoops
    ensures BufferSize(Run(state, nrOfLoops, requests)) <= BufferSize(state) + |requests|
  {
    if |requests| > 0 {
      BufferAtMostLoads(state, nrOfLoops, requests[..|requests| - 1]);
    }
  }

  /** In a thread that has not loaded a page yet, fewer than `nrOfLoops`
      earlier loads never make the next load raise a loop error: every error
      it raises comes from a path that leaves the buffer alone. */
  lemma FewLoadsNeverLoop(state: FactoryState, nrOfLoops: nat, requests: seq<Request>, next: Request)
    requires nrOfLoops > 0 && state.loopBuffer.None?
    requires |requests| + 1 < nrOfLoops
    ensures var before := Run(state, nrOfLoops, requests);
            var r := LoadPO(before, next.env, nrOfLoops, next.pageClass, next.pageVariables, next.positiveCheck);
            r.page.Err? ==> r.state.loopBuffer == before.loopBuffer
  {
    BufferAtMostLoads(state, nrOfLoops, requests);
    var before := Run(state, nrOfLoops, requests);
    SmallBufferNeverLoops(before, next.env, nrOfLoops, next.pageClass, next.pageVariables, next.positiveCheck);
  }

  /** One load on a buffer that is still two short of full: an error it
      raises leaves the buffer alone, since the loop detection cannot fire. */
  lemma SmallBufferNeverLoops(state: FactoryState, env: Environment, nrOfLoops: nat, pageClass: string,
                              pageVariables: PageVariables, positiveCheck: bool)
    requires nrOfLoops > 0 && BufferSize(state) + 1 < nrOfLoops
    ensures var r := LoadPO(state, env, nrOfLoops, pageClass, pageVariables, positiveCheck);
            r.page.Err? ==> r.state.loopBuffer == state.loopBuffer
  {
    if !pageVariables.PageAsVariables? && env.constructionFailure.None? {
      var resolved := env.bestMatchingClass(pageClass, PagesPrefix(state.globalPagesPrefix, state.threadLocalPagesPrefix));
      var check := if positiveCheck then CheckPage else CheckPageInverse;
      if env.checkFailure(check).None? {
        var buffer := RecordPage(state.loopBuffer, resolved, nrOfLoops);
        assert |buffer| < nrOfLoops;
        assert DetectLoop(buffer, nrOfLoops).None?;
      }
    }
  }
}
