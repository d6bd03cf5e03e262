/** `UITestUtils`: the window and focus metadata of a screenshot, the
    guards of `takeScreenshot`, and the tagging of session screenshots. */
module UiTestUtils {
  import opened Wrappers
  import opened Strings

  // ------------------------------------------------------------ window label

  /** `"#" + position + "/" + count`. */
  function FormatWindowLabel(position: int, count: int): string {
    "#" + IntToString(position) + "/" + IntToString(count)
  }

  /** The last 0-based position of `handle` in `handles`, or -1. */
  function LastIndexOf(handles: seq<string>, handle: string): (i: int)
    ensures -1 <= i < |handles|
    ensures i == -1 <==> handle !in handles
    ensures i >= 0 ==> handles[i] == handle && forall k :: i < k < |handles| ==> handles[k] != handle
  {
    LastBefore(handles, handle, |handles|)
  }

  /** The last position of `handle` among the first `n` handles, or -1. */
  function LastBefore(handles: seq<string>, handle: string, n: nat): (i: int)
    requires n <= |handles|
    ensures -1 <= i < n
    ensures i == -1 <==> forall k :: 0 <= k < n ==> handles[k] != handle
    ensures i >= 0 ==> handles[i] == handle && forall k :: i < k < n ==> handles[k] != handle
  {
    if n == 0 then -1
    else if handles[n - 1] == handle then n - 1
    else LastBefore(handles, handle, n - 1)
  }

  /** The window label of the screenshot meta data: "#1/1" with fewer
      than two handles, the position of the current handle among them
      otherwise, and "" when it is not among them. */
  function WindowLabel(handles: seq<string>, windowHandle: string): (text: string)
    ensures |handles| < 2 ==> text == "#1/1"
    ensures |handles| >= 2 && windowHandle !in handles ==> text == ""
  {
    if |handles| < 2 then "#1/1"
    else
      LabelAt(LastIndexOf(handles, windowHandle), |handles|)
  }

  /** The label for the 0-based position `last`, or "" for -1. */
  function LabelAt(last: int, count: int): string {
    if last == -1 then "" else FormatWindowLabel(last + 1, count)
  }

  /** The loop over `handleStrings`: every matching position overwrites
      the label. */
  method ComputeWindowLabel(handles: seq<string>, windowHandle: string) returns (window: string)
    ensures window == WindowLabel(handles, windowHandle)
  {
    window := "";
    if |handles| < 2 {
      window := "#1/1";
    } else {
      var i := 0;
      ghost var last := -1;
      while i < |handles|
        invariant 0 <= i <= |handles|
        invariant last == LastBefore(handles, windowHandle, i)
        invariant window == LabelAt(last, |handles|)
      {
        if handles[i] == windowHandle {
          window := FormatWindowLabel(i + 1, |handles|);
          last := i;
        }
        i := i + 1;
      }
    }
  }

  /** Window handles come from a set, so they are distinct. */
  predicate Distinct(handles: seq<string>) {
    forall k, l :: 0 <= k < l < |handles| ==> handles[k] != handles[l]
  }

  /** With two or more distinct handles, the label gives the 1-based
      position of the current handle and the number of handles. */
  lemma WindowLabelPosition(handles: seq<string>, windowHandle: string, i: int)
    requires Distinct(handles) && |handles| >= 2
    requires 0 <= i < |handles| && handles[i] == windowHandle
    ensures WindowLabel(handles, windowHandle) == FormatWindowLabel(i + 1, |handles|)
  {
  }

  /** Reading a label back: the position and the count. */
  function ParseWindowLabel(s: string): Option<(int, int)> {
    if |s| == 0 || s[0] != '#' then None
    else
      var slash := IndexOf(s[1..], '/');
      if slash == -1 then None
      else
        match (ParseDecimal(s[1..][..slash]), ParseDecimal(s[1..][slash + 1..]))
        case (Some(p), Some(n)) => Some((p, n))
        case _ => None
  }

  /** The label is a faithful record: position and count read back. */
  lemma WindowLabelRoundTrip(position: int, count: int)
    ensures ParseWindowLabel(FormatWindowLabel(position, count)) == Some((position, count))
  {
    var p := IntToString(position);
    var n := IntToString(count);
    assert FormatWindowLabel(position, count)[1..] == p + "/" + n;
    assert '/' !in p by {
      forall k | 0 <= k < |p| ensures p[k] != '/' {
      }
    }
    SplitAtFirst(p, '/', n);
    IntToStringRoundTrip(position);
    IntToStringRoundTrip(count);
  }

  // ------------------------------------------------------------------- focus

  /** The value stored under `DRIVER_FOCUS`, if any. */
  function DriverFocus(originalWindowHandle: Option<string>, windowHandle: string): (focus: Option<string>)
    ensures focus.None? <==> originalWindowHandle.None?
    ensures focus == Some("true") <==> originalWindowHandle == Some(windowHandle)
  {
    match originalWindowHandle
    case None => None
    case Some(original) => Some(if windowHandle == original then "true" else "false")
  }

  /** The meta data keys set by `takeScreenshot`. */
  datatype MetaKey = SessionKey | Title | DriverFocusKey | Window | Url

  /** What the browser session reports while a screenshot is taken. */
  datatype Session = Session(title: string, windowHandle: string, windowHandles: seq<string>, currentUrl: string)

  /** The meta data `takeScreenshot(Screenshot, …)` writes when no call
      throws. */
  function ScreenshotMeta(session: Session, originalWindowHandle: Option<string>, sessionKey: Option<string>)
    : (meta: map<MetaKey, string>)
    ensures SessionKey in meta <==> sessionKey.Some?
    ensures DriverFocusKey in meta <==> originalWindowHandle.Some?
    ensures Title in meta && Window in meta && Url in meta
    ensures meta[Window] == WindowLabel(session.windowHandles, session.windowHandle)
    ensures DriverFocusKey in meta ==> meta[DriverFocusKey] == DriverFocus(originalWindowHandle, session.windowHandle).value
  {
    var base := map[Title := session.title];
    var withKey := if sessionKey.Some? then base[SessionKey := sessionKey.value] else base;
    var focus := DriverFocus(originalWindowHandle, session.windowHandle);
    var withFocus := if focus.Some? then withKey[DriverFocusKey := focus.value] else withKey;
    withFocus[Window := WindowLabel(session.windowHandles, session.windowHandle)][Url := session.currentUrl]
  }

  /** The title, URL and session key are stored as given. */
  lemma MetaValues(session: Session, originalWindowHandle: Option<string>, sessionKey: Option<string>)
    ensures var meta := ScreenshotMeta(session, originalWindowHandle, sessionKey);
            meta[Title] == session.title && meta[Url] == session.currentUrl
            && (sessionKey.Some? ==> meta[SessionKey] == sessionKey.value)
  {
  }

  // ----------------------------------------------------------------- guards

  const HTMLUNIT: string := "htmlunit"
  const NULL_POINTER: string := "NullPointerException"

  /** The request `WebDriverManager.getRelatedWebDriverRequest` finds for a
      driver (`None` is `null`); its `browser` may itself be `null`. */
  datatype Request = Request(browser: Option<string>)

  /** `Browsers.htmlunit.equalsIgnoreCase(browser)`: false for `null`. */
  predicate IsHtmlUnit(browser: Option<string>) {
    browser.Some? && EqualsIgnoreCase(HTMLUNIT, browser.value)
  }

  /** `takeScreenshot(WebDriver, …)`: the screenshotter switch first, then
      the browser of the related request (read before the driver is
      checked, so a missing request throws), then the driver. `Ok(None)`
      is the `null` it returns. */
  function TakeScreenshot(screenshotterActive: bool, request: Option<Request>, session: Option<Session>,
                          originalWindowHandle: Option<string>, sessionKey: Option<string>)
    : (r: Result<Option<map<MetaKey, string>>, string>)
    ensures !screenshotterActive ==> r == Ok(None)
    ensures r.Err? <==> screenshotterActive && request.None?
    ensures r.Err? ==> r.error == NULL_POINTER
    ensures r.Ok? && r.value.Some? <==>
              screenshotterActive && request.Some? && !IsHtmlUnit(request.value.browser) && session.Some?
    ensures r.Ok? && r.value.Some? ==> r.value.value == ScreenshotMeta(session.value, originalWindowHandle, sessionKey)
  {
    if !screenshotterActive then Ok(None)
    else if request.None? then Err(NULL_POINTER)
    else if IsHtmlUnit(request.value.browser) then Ok(None)
    else if session.None? then Ok(None)
    else Ok(Some(ScreenshotMeta(session.value, originalWindowHandle, sessionKey)))
  }

  /** Case does not matter for the htmlunit guard. */
  lemma HtmlUnitInAnyCase(screenshotterActive: bool, session: Option<Session>,
                          originalWindowHandle: Option<string>, sessionKey: Option<string>)
    ensures TakeScreenshot(screenshotterActive, Some(Request(Some("HtmlUnit"))), session, originalWindowHandle, sessionKey).Ok?
    ensures TakeScreenshot(screenshotterActive, Some(Request(Some("HtmlUnit"))), session, originalWindowHandle, sessionKey).value.None?
    ensures TakeScreenshot(screenshotterActive, Some(Request(Some("HTMLUNIT"))), session, originalWindowHandle, sessionKey).value.None?
  {
    assert EqualsIgnoreCase(HTMLUNIT, "HtmlUnit");
    assert EqualsIgnoreCase(HTMLUNIT, "HTMLUNIT");
  }

  /** Whatever the inputs, a screenshot that is taken records the session's
      title, URL and window label, the session key exactly when one is
      given, and the focus exactly when the original handle is known. */
  lemma ScreenshotDescribesSession(screenshotterActive: bool, request: Option<Request>, session: Option<Session>,
                                   originalWindowHandle: Option<string>, sessionKey: Option<string>)
    ensures var r := TakeScreenshot(screenshotterActive, request, session, originalWindowHandle, sessionKey);
            r.Ok? && r.value.Some? ==>
              var meta := r.value.value;
              && Title in meta && meta[Title] == session.value.title
              && Url in meta && meta[Url] == session.value.currentUrl
              && Window in meta && meta[Window] == WindowLabel(session.value.windowHandles, session.value.windowHandle)
              && (SessionKey in meta <==> sessionKey.Some?)
              && (SessionKey in meta ==> meta[SessionKey] == sessionKey.value)
              && (DriverFocusKey in meta <==> originalWindowHandle.Some?)
  {
    var r := TakeScreenshot(screenshotterActive, request, session, originalWindowHandle, sessionKey);
    if r.Ok? && r.value.Some? {
      MetaValues(session.value, originalWindowHandle, sessionKey);
    }
  }

  // ---------------------------------------------------- sessions and tagging

  datatype Screenshot = Screenshot(meta: map<MetaKey, string>, errorContextId: Option<string>)

  /** The screenshots of all sessions whose capture did not throw, in
      session order. */
  function Collected(sessions: seq<Result<seq<Screenshot>, string>>): seq<Screenshot> {
    if |sessions| == 0 then []
    else (if sessions[0].Ok? then sessions[0].value else []) + Collected(sessions[1..])
  }

  /** What `takeScreenshotsFromSessions` returns and what it adds to the
      method context (`None` without a method context). */
  datatype SessionScreenshots = SessionScreenshots(screenshots: seq<Screenshot>, addedToContext: Option<seq<Screenshot>>)

  function Tag(screenshots: seq<Screenshot>, contextId: string): (r: seq<Screenshot>)
    ensures |r| == |screenshots|
    ensures forall k :: 0 <= k < |r| ==> r[k] == screenshots[k].(errorContextId := Some(contextId))
  {
    seq(|screenshots|, k requires 0 <= k < |screenshots| => screenshots[k].(errorContextId := Some(contextId)))
  }

  /** `takeScreenshotsFromSessions`; a `null` driver map is `None`. */
  function TakeScreenshotsFromSessions(sessions: Option<seq<Result<seq<Screenshot>, string>>>,
                                       methodContextId: Option<string>, explicitly: bool)
    : (r: SessionScreenshots)
    ensures r.addedToContext.Some? <==> methodContextId.Some?
    ensures r.addedToContext.Some? ==> r.addedToContext.value == r.screenshots
    ensures methodContextId.Some? && explicitly ==>
              forall k :: 0 <= k < |r.screenshots| ==> r.screenshots[k].errorContextId == methodContextId
    ensures methodContextId.None? || !explicitly ==>
              r.screenshots == (if sessions.Some? then Collected(sessions.value) else [])
  {
    var collected := if sessions.Some? then Collected(sessions.value) else [];
    match methodContextId
    case None => SessionScreenshots(collected, None)
    case Some(id) =>
      var published := if explicitly then Tag(collected, id) else collected;
      SessionScreenshots(published, Some(published))
  }

  /** Tagging changes nothing but the error context id: the screenshots and
      their meta data are those collected from the sessions. */
  lemma TaggingKeepsScreenshots(sessions: seq<Result<seq<Screenshot>, string>>, methodContextId: string, explicitly: bool)
    ensures var r := TakeScreenshotsFromSessions(Some(sessions), Some(methodContextId), explicitly);
            |r.screenshots| == |Collected(sessions)|
            && forall k :: 0 <= k < |r.screenshots| ==> r.screenshots[k].meta == Collected(sessions)[k].meta
  {
  }

  /** A session whose capture throws contributes nothing, the others
      contribute all their screenshots. */
  lemma {:induction false} CollectedCount(sessions: seq<Result<seq<Screenshot>, string>>)
    ensures |Collected(sessions)| == SuccessfulCount(sessions)
  {
    if |sessions| > 0 {
      CollectedCount(sessions[1..]);
    }
  }

  function SuccessfulCount(sessions: seq<Result<seq<Screenshot>, string>>): nat {
    if |sessions| == 0 then 0
    else (if sessions[0].Ok? then |sessions[0].value| else 0) + SuccessfulCount(sessions[1..])
  }
}
