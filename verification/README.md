# Testerra core, modelled in Dafny

This project models the decision logic at the core of Testerra, a Selenium-based test automation framework. All of it is written as pure Dafny functions, small methods and lemmas:

- **Layout check** (`LayoutCheck`, `Point2D`, `AmbiguousMatchDetector`):
  - the pixel-by-pixel screenshot comparison, including the colour tolerance, the ignore colour, the regions compared, the error and ignored counts and the resulting distance;
  - the run counter that names consecutive screenshots;
  - the 2-D point arithmetic;
  - the ambiguous-match filter.
- **Page objects** (`GuiElement`, `Page`, `PageFactory`, `CheckFieldAction`, `HorizontalDistanceAssertion`, `VerticalDistanceAssertion`):
  - how a `GuiElement` stacks its decorators, builds its XPath and caches its assertion flavours;
  - how `Page` searches frames for a text and computes think times;
  - how `PageFactory` resolves, checks and loop-detects page classes;
  - how `@Check` fields are validated;
  - the pixel distances between elements.
- **Reporting** (`MethodContextExporter`, `StatisticsGenerator`, `UiTestUtils`, `TestNGHelper`, `EventsFinishWorker`):
  - how artifact paths are mapped;
  - how click paths, screenshots and videos become report records;
  - how the report app groups and identifies methods;
  - screenshot meta data and tagging;
  - the getter fallbacks of `TestNGHelper`;
  - the events fired when a method finishes.
- **Driver settings** (`DesktopWebDriverRequest`, `Defaults`, `DimensionPattern`, `CapabilityLogHelper`):
  - the window size and server URL of a desktop request;
  - the validated defaults;
  - the cleaned, sorted capability map that is logged.

Some Java and TypeScript behaviour is written out explicitly:

- `int` and `long` arithmetic wraps around (`JavaInt.Wrap32`, `JavaInt.Wrap64`), and integer division truncates toward zero (`JavaInt.TruncDiv`).
- `null` is `Option.None`, and an exception is `Result.Err`.
- `String.replace` replaces every occurrence.
- `Matcher.find` returns the leftmost match.
- A `TreeMap` is a list of entries sorted by the lexicographic order of its keys.

Everything the code reads from its environment is a parameter. This covers properties, WebDriver answers, random numbers, generated ids, class lookup and URL parsing.

## Model

| member | source | states |
|---|---|---|
| LayoutCheck.ChannelWithinTolerance | image-processing/src/main/java/eu/tsystems/mms/tic/testframework/layout/LayoutCheck.java:429-440 | The truncated channel percentage is within the tolerance exactly when 100·|Δ| < 255·(t+1), so the double arithmetic is the integer floor. |
| LayoutCheck.IdenticalColoursMatch | image-processing/src/main/java/eu/tsystems/mms/tic/testframework/layout/LayoutCheck.java:424-427 | Identical colours match at every tolerance. |
| LayoutCheck.ZeroToleranceIsEquality | image-processing/src/main/java/eu/tsystems/mms/tic/testframework/layout/LayoutCheck.java:424-443 | With a tolerance of 0 or less, two colours match exactly when the ARGB ints are equal. |
| LayoutCheck.MatchSymmetric | image-processing/src/main/java/eu/tsystems/mms/tic/testframework/layout/LayoutCheck.java:424-443 | Matching does not depend on which image is the reference. |
| LayoutCheck.MatchMonotone | image-processing/src/main/java/eu/tsystems/mms/tic/testframework/layout/LayoutCheck.java:429-440 | A pair that matches at one tolerance matches at every larger tolerance. |
| LayoutCheck.AlphaIgnoredWithTolerance | image-processing/src/main/java/eu/tsystems/mms/tic/testframework/layout/LayoutCheck.java:429-440 | With a positive tolerance, the alpha byte plays no part: colours that agree in R, G and B match. |
| LayoutCheck.CanvasSize | image-processing/src/main/java/eu/tsystems/mms/tic/testframework/layout/LayoutCheck.java:452-460 | The canvas is as wide as the wider image and as high as the higher one. |
| LayoutCheck.CanvasCoversImages | image-processing/src/main/java/eu/tsystems/mms/tic/testframework/layout/LayoutCheck.java:470-476 | Every pixel inside either image lies inside the canvas. |
| LayoutCheck.SelectRegionsTotal | image-processing/src/main/java/eu/tsystems/mms/tic/testframework/layout/LayoutCheck.java:332-419 | The annotations matter only in area-colour mode without the ignore colour. The total compared is the annotated areas' sum there, and the canvas's width × height otherwise. |
| LayoutCheck.OnlyAnnotationsLeaveCanvas | image-processing/src/main/java/eu/tsystems/mms/tic/testframework/layout/LayoutCheck.java:332-345 | The selected regions stay on the canvas iff the annotations are unused or stay on it themselves: the whole-canvas region never reaches past it. |
| LayoutCheck.SelectRegions | image-processing/src/main/java/eu/tsystems/mms/tic/testframework/layout/LayoutCheck.java:332-345 | The annotated regions are used only in area-colour mode without the ignore colour, and when annotations exist. Otherwise one region covers the whole canvas. |
| LayoutCheck.CellKindMeaning | image-processing/src/main/java/eu/tsystems/mms/tic/testframework/layout/LayoutCheck.java:375-404 | A pixel is outside when it is out of either image's bounds. It is ignored when the reference pixel has the ignore colour. It is an error when the colours do not match. |
| LayoutCheck.CellCounts | image-processing/src/main/java/eu/tsystems/mms/tic/testframework/layout/LayoutCheck.java:381-401 | Each pixel adds at most one to the counts: one error exactly for an error pixel, one ignored exactly for an ignored pixel. |
| LayoutCheck.CountPixels | image-processing/src/main/java/eu/tsystems/mms/tic/testframework/layout/LayoutCheck.java:364-418 | The counting loops give the region counts, and errors plus ignored never exceed the region's total pixels. |
| LayoutCheck.RegionCountsBounded | image-processing/src/main/java/eu/tsystems/mms/tic/testframework/layout/LayoutCheck.java:364-418 | Errors plus ignored pixels are at most the sum of width·height over the regions. |
| LayoutCheck.IdenticalImagesNoErrors | image-processing/src/main/java/eu/tsystems/mms/tic/testframework/layout/LayoutCheck.java:364-404 | Comparing an image with itself counts no errors. |
| LayoutCheck.ToleranceMonotone | image-processing/src/main/java/eu/tsystems/mms/tic/testframework/layout/LayoutCheck.java:364-404 | Raising the tolerance never adds errors and leaves the ignored count unchanged. |
| LayoutCheck.UniformReferenceAllIgnored | image-processing/src/main/java/eu/tsystems/mms/tic/testframework/layout/LayoutCheck.java:362-404 | In ignore-colour mode, a reference made entirely of the ignore colour has every pixel ignored and none in error. |
| LayoutCheck.DistanceAsWritten | image-processing/src/main/java/eu/tsystems/mms/tic/testframework/layout/LayoutCheck.java:415-421 | As written, the distance is 100·errors/(total − ignored). It is NaN exactly when every pixel is ignored. |
| LayoutCheck.GuardedDistance | image-processing/src/main/java/eu/tsystems/mms/tic/testframework/layout/LayoutCheck.java:415-421 | The corrected distance is always a ratio with a positive denominator, lies in [0, 100], is 0 iff there are no errors, and equals 100·errors/(total − ignored) when that is defined. |
| LayoutCheck.DistanceAgreesWhenDefined | image-processing/src/main/java/eu/tsystems/mms/tic/testframework/layout/LayoutCheck.java:415-421 | Wherever the as-written distance is defined, the corrected one equals it. |
| LayoutCheck.PixelDistance | image-processing/src/main/java/eu/tsystems/mms/tic/testframework/layout/LayoutCheck.java:302-422 | As the source computes it, the distance is NaN exactly when every compared pixel is ignored or nothing is compared. Otherwise it is 100·errors/(total − ignored), a value in [0, 100]. |
| LayoutCheck.GenerateDistance | image-processing/src/main/java/eu/tsystems/mms/tic/testframework/layout/LayoutCheck.java:302-422 | The counting loops and the area sum give the unguarded quotient of the recursive region counts, so the result is NaN exactly when nothing non-ignored was compared, and otherwise lies in [0, 100]. Identical images give 0. |
| LayoutCheck.PixelDistanceCorrected | image-processing/src/main/java/eu/tsystems/mms/tic/testframework/layout/LayoutCheck.java:415-421 | The corrected comparison is always a ratio in [0, 100]. |
| LayoutCheck.CorrectedAgreesWhenDefined | image-processing/src/main/java/eu/tsystems/mms/tic/testframework/layout/LayoutCheck.java:415-421 | The corrected comparison equals the source's wherever the source gives a number, and is NO_DISTANCE where it gives NaN. |
| LayoutCheck.DisjointImagesFullDistance | image-processing/src/main/java/eu/tsystems/mms/tic/testframework/layout/LayoutCheck.java:364-421 | Images of one size that differ in every pixel, compared with tolerance 0 and no ignore colour over regions inside them, count every pixel as an error, so the distance is 100. |
| LayoutCheck.UniformReferenceIsNaN | image-processing/src/main/java/eu/tsystems/mms/tic/testframework/layout/LayoutCheck.java:415-421 | A uniform ignore-colour reference makes the source's distance NaN, while the corrected distance is 0. |
| LayoutCheck.NoAnnotatedAreaIsNaN | image-processing/src/main/java/eu/tsystems/mms/tic/testframework/layout/LayoutCheck.java:332-345 | In area-colour mode, an annotation list with no areas leaves nothing to compare, so the source's distance is NaN and the corrected one is 0. |
| LayoutCheck.RunNamesDistinct | image-processing/src/main/java/eu/tsystems/mms/tic/testframework/layout/LayoutCheck.java:186-206 | Consecutive runs of one target get different screenshot names. |
| LayoutCheck.Prepare | image-processing/src/main/java/eu/tsystems/mms/tic/testframework/layout/LayoutCheck.java:186-206 | The run counter of the target goes up by one (first run: 1), other targets keep theirs. The consecutive name is absent exactly in take-reference mode, and otherwise is the name plus the run number from the second run on. |
| LayoutCheck.KthPreparation | image-processing/src/main/java/eu/tsystems/mms/tic/testframework/layout/LayoutCheck.java:186-206 | After k preparations of a new target its counter is k, and the k-th consecutive name carries k. |
| LayoutCheck.MatchPixels | image-processing/src/main/java/eu/tsystems/mms/tic/testframework/layout/LayoutCheck.java:239-246 | Pixel mode. Take-reference mode leaves the distance at NO_DISTANCE; otherwise the distance is the source's pixel distance, NaN included; as a number it lies in [0, 100]. The run counter and the consecutive name are those of prepare. |
| GuiElement.IntValue | driver-ui/src/main/java/eu/tsystems/mms/tic/testframework/pageobjects/GuiElement.java:217-219 | `Long.intValue()` always gives an int that keeps the long's low 32 bits: it differs from the long by a multiple of 2^32, and a long that already fits is unchanged. |
| GuiElement.CreateDecorators | driver-ui/src/main/java/eu/tsystems/mms/tic/testframework/pageobjects/GuiElement.java:203-222 | The core comes first. The frame-aware layer is present iff there is frame logic, and then right after the core. The sequence, façade and logging layers follow. A delay layer is present iff a delay, cut to an int, is positive, and when it is last it carries both delays. |
| GuiElement.DecoratorsWellStacked | driver-ui/src/main/java/eu/tsystems/mms/tic/testframework/pageobjects/GuiElement.java:203-222 | Every layer wraps the one before it in the fixed order, and no layer appears twice. |
| GuiElement.FrameLayerIffFrames | driver-ui/src/main/java/eu/tsystems/mms/tic/testframework/pageobjects/GuiElement.java:168-170 | The frame-aware layer is present iff a non-empty frames array was given. |
| GuiElement.CreateXPath | driver-ui/src/main/java/eu/tsystems/mms/tic/testframework/pageobjects/GuiElement.java:932-945 | The XPath is the join of the locators collected while climbing the parents, outermost first. |
| GuiElement.ChainCollectsAll | driver-ui/src/main/java/eu/tsystems/mms/tic/testframework/pageobjects/GuiElement.java:932-945 | For a chain of basic elements, the XPath holds every locator, outermost ancestor first. |
| GuiElement.StopsAtNonBasicParent | driver-ui/src/main/java/eu/tsystems/mms/tic/testframework/pageobjects/GuiElement.java:932-945 | The climb stops at a parent that is not a BasicUiElement; nothing above it contributes. |
| GuiElement.Present | driver-ui/src/main/java/eu/tsystems/mms/tic/testframework/pageobjects/GuiElement.java:801-819 | Not found gives false, a found element gives the core's answer, and any other failure is raised. |
| GuiElement.Displayed | driver-ui/src/main/java/eu/tsystems/mms/tic/testframework/pageobjects/GuiElement.java:837-856 | Not found gives false, a found element gives the core's answer, and any other failure is raised. |
| GuiElement.NumberOfElements | driver-ui/src/main/java/eu/tsystems/mms/tic/testframework/pageobjects/GuiElement.java:906-924 | Not found gives 0, a found element gives the core's count, and any other failure is raised. |
| GuiElement.NotFoundNeverRaises | driver-ui/src/main/java/eu/tsystems/mms/tic/testframework/pageobjects/GuiElement.java:801-924 | Not finding the element never raises from present, displayed or numberOfElements. True is returned only for a successful lookup. |
| GuiElement.Get | driver-ui/src/main/java/eu/tsystems/mms/tic/testframework/pageobjects/GuiElement.java:642-690 | Each assertion flavour is created on first use and reused afterwards. |
| GuiElement.Asserts | driver-ui/src/main/java/eu/tsystems/mms/tic/testframework/pageobjects/GuiElement.java:609-619 | On first use the default is the collector if the property says so and the instant variant otherwise. Afterwards the cached default is returned, whatever the property now says. |
| GuiElement.RunKeepsInvariant | driver-ui/src/main/java/eu/tsystems/mms/tic/testframework/pageobjects/GuiElement.java:609-690 | Over any sequence of calls, each flavour is created at most once, and a chosen default never changes. |
| GuiElement.FirstAssertsDecides | driver-ui/src/main/java/eu/tsystems/mms/tic/testframework/pageobjects/GuiElement.java:609-619 | The property value at the first `asserts()` call fixes the default for all later calls. |
| GuiElement.SetTimeoutInSeconds | driver-ui/src/main/java/eu/tsystems/mms/tic/testframework/pageobjects/GuiElement.java:482-486 | The element timeout and the assertion factory's default timeout are both set to the new value. |
| GuiElement.RestoreDefaultTimeout | driver-ui/src/main/java/eu/tsystems/mms/tic/testframework/pageobjects/GuiElement.java:491-495 | Only the element timeout returns to the page default; the factory default is kept. |
| GuiElement.SetTimeoutLastWins | driver-ui/src/main/java/eu/tsystems/mms/tic/testframework/pageobjects/GuiElement.java:478-486 | The last set wins, and it is what the getter reads back. |
| Page.NewPage | driver-ui/src/main/java/eu/tsystems/mms/tic/testframework/pageobjects/Page.java:64-67 | A null driver raises IllegalArgumentException; otherwise the page keeps the driver. |
| Page.ThinkTime | driver-ui/src/main/java/eu/tsystems/mms/tic/testframework/pageobjects/Page.java:96-117 | The wait is never negative and never above t + 1999, and it is 0 when the think time t is not positive. When t plus the draw minus 2000 fits an int, the wait is that value, floored at 0. When it does not fit, the `int` sum wraps to a negative value and the wait is 0. |
| Page.ThinkTimeWindow | driver-ui/src/main/java/eu/tsystems/mms/tic/testframework/pageobjects/Page.java:96-117 | A think time of at least 2000 ms waits between t − 2000 and t + 1999, for every draw. |
| Page.GetFieldActions | driver-ui/src/main/java/eu/tsystems/mms/tic/testframework/pageobjects/Page.java:124-138 | Each field gets three actions, in field order: SetName, then SetGuiElementTimeout, then GuiElementCheck. |
| Page.TextFinderXPathShape | driver-ui/src/main/java/eu/tsystems/mms/tic/testframework/pageobjects/Page.java:164-172 | The search locator is the XPath template with the text in place of the placeholder. |
| Page.SearchCorrect | driver-ui/src/main/java/eu/tsystems/mms/tic/testframework/pageobjects/Page.java:168-222 | The recursive search finds the text iff it is somewhere in the frame tree. The frame path it returns leads to a frame where the text is present. |
| Page.SearchedText | driver-ui/src/main/java/eu/tsystems/mms/tic/testframework/pageobjects/Page.java:164-172 | As written, the locator searches for the text only up to its first apostrophe, because the text goes between the template's apostrophes unescaped. The searched text equals the text exactly when the text has no apostrophe. |
| Page.ApostropheTruncatesSearch | driver-ui/src/main/java/eu/tsystems/mms/tic/testframework/pageobjects/Page.java:164-172 | "Don't" is searched for as "Don", and as an apostrophe literal it is not a valid XPath literal. |
| Page.ApostrophePartsValue | driver-ui/src/main/java/eu/tsystems/mms/tic/testframework/pageobjects/Page.java:164-172 | Corrected quoting: splitting a text at its apostrophes into valid literals, and concatenating them, gives back the text. |
| Page.TextArgument | driver-ui/src/main/java/eu/tsystems/mms/tic/testframework/pageobjects/Page.java:164-172 | Corrected quoting: the text becomes a valid XPath string expression whose value is the text. A text without apostrophes keeps the template's apostrophe literal. |
| Page.SearchedTextIntendedIff | driver-ui/src/main/java/eu/tsystems/mms/tic/testframework/pageobjects/Page.java:164-172 | The source's locator searches for the intended text iff the text has no apostrophe. In that case the corrected locator is exactly the source's. |
| Page.IFramesBeforeFrames | driver-ui/src/main/java/eu/tsystems/mms/tic/testframework/pageobjects/Page.java:203-219 | A hit inside a frame is reported only when neither the document nor any iframe subtree contains the text. |
| Page.WaitSequence | driver-ui/src/main/java/eu/tsystems/mms/tic/testframework/pageobjects/Page.java:249-314 | The pass state equals the returned value. It is the observation for `waitForIs*` and its negation for `waitForIsNot*`. |
| Page.NegatedWaitIsComplement | driver-ui/src/main/java/eu/tsystems/mms/tic/testframework/pageobjects/Page.java:249-314 | For the same observation, the negated wait passes exactly when the positive one does not. |
| Page.AssertText | driver-ui/src/main/java/eu/tsystems/mms/tic/testframework/pageobjects/Page.java:316-342 | The positive asserts wait and expect true; the negative asserts check once and expect false. The message is "Text '<text>' is present" (or "displayed") followed by " on current page"; the positive asserts append ". " and the description. |
| Page.AssertTextPasses | driver-ui/src/main/java/eu/tsystems/mms/tic/testframework/pageobjects/Page.java:316-342 | Each assertion passes exactly when its observation has the expected value. |
| PageFactory.PagesPrefix | fennec-driver-ui/src/main/java/eu/tsystems/mms/tic/testframework/pageobjects/factory/PageFactory.java:109-112 | The thread-local prefix wins when it is set and non-empty; otherwise the global prefix is used. |
| PageFactory.Push | fennec-driver-ui/src/main/java/eu/tsystems/mms/tic/testframework/pageobjects/factory/PageFactory.java:166-173 | The circular buffer keeps the newest entries: the new class is appended and, when full, the oldest entry is dropped. |
| PageFactory.Distinct | fennec-driver-ui/src/main/java/eu/tsystems/mms/tic/testframework/pageobjects/factory/PageFactory.java:176-186 | The class list holds every buffered class, each exactly once, and starts with the oldest entry. |
| PageFactory.DistinctSingleIffSame | fennec-driver-ui/src/main/java/eu/tsystems/mms/tic/testframework/pageobjects/factory/PageFactory.java:176-188 | A class list of size 1 means the whole buffer holds one class. |
| PageFactory.DetectLoop | fennec-driver-ui/src/main/java/eu/tsystems/mms/tic/testframework/pageobjects/factory/PageFactory.java:176-192 | A loop is raised exactly when the buffer is full and holds one class only, and the message names that class. |
| PageFactory.RecordPage | fennec-driver-ui/src/main/java/eu/tsystems/mms/tic/testframework/pageobjects/factory/PageFactory.java:166-173 | The buffer is created on first use and holds the previous entries plus the new class, up to NR_OF_LOOPS. |
| PageFactory.HandleFailure | fennec-driver-ui/src/main/java/eu/tsystems/mms/tic/testframework/pageobjects/factory/PageFactory.java:142-161 | A handler that throws its own throwable replaces the original, and its message is recorded in the method context if the thread has one. Otherwise the original throwable leaves loadPO and nothing is recorded. |
| PageFactory.CheckAndRecord | fennec-driver-ui/src/main/java/eu/tsystems/mms/tic/testframework/pageobjects/factory/PageFactory.java:135-192 | A failed page check goes to the error handler and leaves the buffer alone. A passing check records the page and runs the loop detection. |
| PageFactory.CheckFailed | fennec-driver-ui/src/main/java/eu/tsystems/mms/tic/testframework/pageobjects/factory/PageFactory.java:142-161 | A throwing page check leaves the loop buffer as it was; the state and the throwable are what the error-handler flow yields. |
| PageFactory.CheckPassed | fennec-driver-ui/src/main/java/eu/tsystems/mms/tic/testframework/pageobjects/factory/PageFactory.java:166-192 | A passing check records the page in a buffer of at most NR_OF_LOOPS entries, changes no other state, and fails exactly when loop detection fires on the new buffer. |
| PageFactory.LoadPO | fennec-driver-ui/src/main/java/eu/tsystems/mms/tic/testframework/pageobjects/factory/PageFactory.java:99-195 | Passing a page as page variables is refused before any other work. The check is the positive or inverse page check as requested. The buffer never exceeds NR_OF_LOOPS. |
| PageFactory.Create | fennec-driver-ui/src/main/java/eu/tsystems/mms/tic/testframework/pageobjects/factory/PageFactory.java:91-97 | `create` runs the positive page check. |
| PageFactory.CheckNot | fennec-driver-ui/src/main/java/eu/tsystems/mms/tic/testframework/pageobjects/factory/PageFactory.java:83-89 | `checkNot` runs the inverse page check. |
| PageFactory.ThreadLocalPrefixOverrides | fennec-driver-ui/src/main/java/eu/tsystems/mms/tic/testframework/pageobjects/factory/PageFactory.java:109-112 | The class finder gets the thread-local prefix iff it is non-empty. |
| PageFactory.FailureLeavesBuffer | fennec-driver-ui/src/main/java/eu/tsystems/mms/tic/testframework/pageobjects/factory/PageFactory.java:142-161 | A failed construction or check never touches the loop buffer. The throwable raised is the handler's own one or the original one. |
| PageFactory.SuccessfulLoadBuffer | fennec-driver-ui/src/main/java/eu/tsystems/mms/tic/testframework/pageobjects/factory/PageFactory.java:166-192 | A successful load appends the page class as the newest entry, keeps the last NR_OF_LOOPS entries, and fails exactly when the full buffer holds one class. |
| PageFactory.Run | fennec-driver-ui/src/main/java/eu/tsystems/mms/tic/testframework/pageobjects/factory/PageFactory.java:99-195 | Over any run of loads in one thread, the buffer never exceeds NR_OF_LOOPS. |
| PageFactory.BufferAtMostLoads | fennec-driver-ui/src/main/java/eu/tsystems/mms/tic/testframework/pageobjects/factory/PageFactory.java:166-173 | The buffer grows by at most one entry per load. |
| PageFactory.FewLoadsNeverLoop | fennec-driver-ui/src/main/java/eu/tsystems/mms/tic/testframework/pageobjects/factory/PageFactory.java:176-192 | In a fresh thread, the first NR_OF_LOOPS − 1 loads never raise the loop error: a load that fails leaves the buffer as it was. |
| CheckFieldAction.ReadableMessageShape | driver-ui/src/main/java/eu/tsystems/mms/tic/testframework/pageobjects/internal/action/CheckFieldAction.java:36-37 | For Java identifiers, the message is the class name, then ": Mandatory GuiElement >", then the field name, then the tail of the chosen template. |
| CheckFieldAction.FieldReplaced | driver-ui/src/main/java/eu/tsystems/mms/tic/testframework/pageobjects/internal/action/CheckFieldAction.java:52 | The first replacement changes only the `###` of the template. |
| CheckFieldAction.ClassReplaced | driver-ui/src/main/java/eu/tsystems/mms/tic/testframework/pageobjects/internal/action/CheckFieldAction.java:54 | The second replacement changes only the leading `***`. |
| CheckFieldAction.MessagesDistinguishFindNot | driver-ui/src/main/java/eu/tsystems/mms/tic/testframework/pageobjects/internal/action/CheckFieldAction.java:36-37 | The found and not-found messages differ for every field and page. |
| CheckFieldAction.Before | driver-ui/src/main/java/eu/tsystems/mms/tic/testframework/pageobjects/internal/action/CheckFieldAction.java:62-87 | The check runs iff the field is @Check-annotated, Checkable and non-static. @Check on a non-Checkable type, or a static Checkable field, raises with the matching message. |
| CheckFieldAction.StaticCheckableAlwaysThrows | driver-ui/src/main/java/eu/tsystems/mms/tic/testframework/pageobjects/internal/action/CheckFieldAction.java:72-76 | A static Checkable field raises whether or not it is annotated; a field that is neither annotated nor Checkable is skipped. |
| CheckFieldAction.Execute | driver-ui/src/main/java/eu/tsystems/mms/tic/testframework/pageobjects/internal/action/CheckFieldAction.java:92-120 | Access errors are logged and the method returns. A null field value raises the never-initialized message. A non-null value is checked, and a throwable from the check is rethrown. |
| MethodContextExporter.StripLeadingSlashes | report-model/src/main/java/eu/tsystems/mms/tic/testframework/adapters/MethodContextExporter.java:91-93 | The result is a suffix of the path without a leading '/', and only '/' characters were dropped. |
| MethodContextExporter.MapArtifactsPath | report-model/src/main/java/eu/tsystems/mms/tic/testframework/adapters/MethodContextExporter.java:84-96 | The mapped path has no leading '/' and no backslash. |
| MethodContextExporter.MapArtifactsPathKeepsRelativePaths | report-model/src/main/java/eu/tsystems/mms/tic/testframework/adapters/MethodContextExporter.java:84-96 | A relative forward-slash path that does not contain the report root is returned unchanged. |
| MethodContextExporter.MapArtifactsPathRemovesEveryOccurrence | report-model/src/main/java/eu/tsystems/mms/tic/testframework/adapters/MethodContextExporter.java:85 | Every occurrence of the report root is removed, not just the first. |
| MethodContextExporter.MapArtifactsPathIdempotent | report-model/src/main/java/eu/tsystems/mms/tic/testframework/adapters/MethodContextExporter.java:84-96 | Mapping a mapped path again changes nothing, when the root cannot reappear. |
| MethodContextExporter.MapArtifactBelowRoot | report-model/src/main/java/eu/tsystems/mms/tic/testframework/adapters/MethodContextExporter.java:84-96 | A file at root/relative maps to `relative`. |
| MethodContextExporter.MapEventType | report-model/src/main/java/eu/tsystems/mms/tic/testframework/adapters/MethodContextExporter.java:234-255 | Only unlisted event types map to NOT_SET. |
| MethodContextExporter.MapEventTypeRoundTrip | report-model/src/main/java/eu/tsystems/mms/tic/testframework/adapters/MethodContextExporter.java:234-255 | Every listed type maps to the report constant of the same name and reads back as itself. |
| MethodContextExporter.MapEventTypeInjective | report-model/src/main/java/eu/tsystems/mms/tic/testframework/adapters/MethodContextExporter.java:234-255 | Two different listed types never map to the same constant. |
| MethodContextExporter.ExportClickPathEvents | report-model/src/main/java/eu/tsystems/mms/tic/testframework/adapters/MethodContextExporter.java:232-256 | One report event per click-path event, in order, with the mapped type and the subject and session id copied. |
| MethodContextExporter.ImageRecord | report-model/src/main/java/eu/tsystems/mms/tic/testframework/adapters/MethodContextExporter.java:268-280 | The image record carries all of the screenshot's meta entries, plus sourcesRefId pointing at the sources record. |
| MethodContextExporter.ExportScreenshotsWith | report-model/src/main/java/eu/tsystems/mms/tic/testframework/adapters/MethodContextExporter.java:258-293 | Screenshot k yields the image record at position 2k and the sources record at 2k+1, and the step lists the image id. |
| MethodContextExporter.ExportScreenshotsAsWritten | report-model/src/main/java/eu/tsystems/mms/tic/testframework/adapters/MethodContextExporter.java:263-266 | As written, the sources record is built from the screenshot's own file name. |
| MethodContextExporter.ExportScreenshots | report-model/src/main/java/eu/tsystems/mms/tic/testframework/adapters/MethodContextExporter.java:258-293 | Corrected: the sources record is built from the screenshot's sources file name. |
| MethodContextExporter.ScreenshotRecordsLinked | report-model/src/main/java/eu/tsystems/mms/tic/testframework/adapters/MethodContextExporter.java:258-293 | The image record's sourcesRefId is the id of the sources record that follows it, and the step lists only image ids. |
| MethodContextExporter.SourcesRecordNamesImage | report-model/src/main/java/eu/tsystems/mms/tic/testframework/adapters/MethodContextExporter.java:263-266 | Below the report root, the as-written sources record names the image file, while the corrected one names the sources file. |
| MethodContextExporter.SourcesRecordCounterexample | report-model/src/main/java/eu/tsystems/mms/tic/testframework/adapters/MethodContextExporter.java:263-266 | With the report in /report, screenshot a.png and sources a.html, the as-written sources record is the plain-text record screenshots/a.png. |
| MethodContextExporter.ExportVideos | report-model/src/main/java/eu/tsystems/mms/tic/testframework/adapters/MethodContextExporter.java:131-147 | Each video adds one fresh id to the builder and one WEBM record with that id. |
| MethodContextExporter.VideoIdsMatchRecords | report-model/src/main/java/eu/tsystems/mms/tic/testframework/adapters/MethodContextExporter.java:131-147 | The builder's video ids are exactly the ids of the emitted records, in order. |
| MethodContextExporter.CustomContextJson | report-model/src/main/java/eu/tsystems/mms/tic/testframework/adapters/MethodContextExporter.java:126-129 | The custom-context JSON is set iff the list is non-empty, and then it is the encoder's output. |
| StatisticsGenerator.ParameterTexts | report-ng/app/src/services/statistics-generator.ts:44-54 | One "name: value" text per parameter, in order. |
| StatisticsGenerator.Identifier | report-ng/app/src/services/statistics-generator.ts:44-54 | Without parameters the identifier is the method name. |
| StatisticsGenerator.IdentifierParts | report-ng/app/src/services/statistics-generator.ts:44-54 | With parameters, the identifier is the name followed by the parenthesised, comma-joined parameter texts, and these can be read back. |
| StatisticsGenerator.IdentifierSeparatesValues | report-ng/app/src/services/statistics-generator.ts:44-54 | Two different values of a single parameter give different identifiers. |
| StatisticsGenerator.NumDetails | report-ng/app/src/services/statistics-generator.ts:56-58 | The count is between 0 and 2. It is 0 iff there is neither an error context nor custom contexts, and 2 iff there are both. |
| StatisticsGenerator.FailedStep | report-ng/app/src/services/statistics-generator.ts:60-62 | A negative index gives null. An index past the end gives undefined. Otherwise the result is the step at that index. |
| StatisticsGenerator.ScreenshotIdsOf | report-ng/app/src/services/statistics-generator.ts:142-148 | An id is listed iff some entry carries it as a non-empty screenshot id. |
| StatisticsGenerator.ScreenshotIds | report-ng/app/src/services/statistics-generator.ts:142-148 | Every listed id is non-empty. |
| StatisticsGenerator.ScreenshotIdsMembers | report-ng/app/src/services/statistics-generator.ts:142-148 | An id is listed iff some entry of some action of some step carries it. |
| StatisticsGenerator.ScreenshotIdsAppend | report-ng/app/src/services/statistics-generator.ts:142-148 | Flattening keeps step order: the ids of two step lists are the first list's ids followed by the second's. |
| StatisticsGenerator.FindClass | report-ng/app/src/services/statistics-generator.ts:96-99 | Finds the first statistics with the class identifier, or -1 iff there is none. |
| StatisticsGenerator.AddMethod | report-ng/app/src/services/statistics-generator.ts:96-105 | One loop iteration adds at most one new class statistics. |
| StatisticsGenerator.GroupByClassCorrect | report-ng/app/src/services/statistics-generator.ts:93-107 | Class identifiers are unique. Each statistics holds exactly the methods of its class, in order. Every method's class has a statistics. |
| StatisticsGenerator.GroupByClassCountsEveryMethod | report-ng/app/src/services/statistics-generator.ts:93-107 | The statistics together hold exactly as many method contexts as there are methods. |
| StatisticsGenerator.FindMethod | report-ng/app/src/services/statistics-generator.ts:117-138 | Finds a method context with that id, or none iff no context has that id. |
| StatisticsGenerator.MethodDetailsOf | report-ng/app/src/services/statistics-generator.ts:117-138 | No details iff no class statistics holds a method with that id; otherwise the details come from one of the statistics. |
| StatisticsGenerator.MethodDetailsFirstMatch | report-ng/app/src/services/statistics-generator.ts:117-138 | When class statistics k is the first to hold a method with the id, the details are exactly statistics k and its first method with that id. |
| UiTestUtils.LastIndexOf | driver-ui/src/main/java/eu/tsystems/mms/tic/testframework/utils/UITestUtils.java:177-187 | The last position of the handle in the list, or -1 iff it is absent. |
| UiTestUtils.WindowLabel | driver-ui/src/main/java/eu/tsystems/mms/tic/testframework/utils/UITestUtils.java:177-187 | The label is "#1/1" with fewer than two handles, and empty when the current handle is not among them. |
| UiTestUtils.ComputeWindowLabel | driver-ui/src/main/java/eu/tsystems/mms/tic/testframework/utils/UITestUtils.java:177-187 | The loop, which has no break, gives the label of the last matching position. |
| UiTestUtils.WindowLabelPosition | driver-ui/src/main/java/eu/tsystems/mms/tic/testframework/utils/UITestUtils.java:177-187 | With distinct handles, the label is "#<1-based position>/<count>". |
| UiTestUtils.WindowLabelRoundTrip | driver-ui/src/main/java/eu/tsystems/mms/tic/testframework/utils/UITestUtils.java:177-187 | The label reads back as the same position and count. |
| UiTestUtils.DriverFocus | driver-ui/src/main/java/eu/tsystems/mms/tic/testframework/utils/UITestUtils.java:170-176 | No focus entry without an original handle; otherwise "true" iff the current handle is the original one. |
| UiTestUtils.ScreenshotMeta | driver-ui/src/main/java/eu/tsystems/mms/tic/testframework/utils/UITestUtils.java:160-191 | Title, window and URL are always set. The session key is set iff known, and the focus iff there is an original handle. |
| UiTestUtils.TakeScreenshot | driver-ui/src/main/java/eu/tsystems/mms/tic/testframework/utils/UITestUtils.java:202-228 | An inactive screenshotter returns null before anything else. An active one with no related request throws NullPointerException, because the browser is read before the driver is checked. A screenshot is taken iff the screenshotter is active, the request's browser is not htmlunit (in any letter case; a null browser is not), and a driver exists. Otherwise the result is null. |
| UiTestUtils.HtmlUnitInAnyCase | driver-ui/src/main/java/eu/tsystems/mms/tic/testframework/utils/UITestUtils.java:202-210 | "HtmlUnit" and "HTMLUNIT" are refused like "htmlunit". |
| UiTestUtils.ScreenshotDescribesSession | driver-ui/src/main/java/eu/tsystems/mms/tic/testframework/utils/UITestUtils.java:160-191 | For every input, a screenshot that is taken carries the session's title, URL and window label. It has the session key exactly when one is given, and a focus entry exactly when the original handle is known. |
| UiTestUtils.Tag | driver-ui/src/main/java/eu/tsystems/mms/tic/testframework/utils/UITestUtils.java:416-423 | Each screenshot gets the context id as its error context id, and nothing else changes. |
| UiTestUtils.TakeScreenshotsFromSessions | driver-ui/src/main/java/eu/tsystems/mms/tic/testframework/utils/UITestUtils.java:394-426 | Screenshots go to the method context iff there is one. With `explicitly` they are tagged with its id; otherwise they are returned as collected. |
| UiTestUtils.TaggingKeepsScreenshots | driver-ui/src/main/java/eu/tsystems/mms/tic/testframework/utils/UITestUtils.java:416-423 | Tagging keeps the number of screenshots and their meta data. |
| UiTestUtils.CollectedCount | driver-ui/src/main/java/eu/tsystems/mms/tic/testframework/utils/UITestUtils.java:394-415 | A session whose capture throws contributes nothing; the others contribute all their screenshots. |
| DesktopWebDriverRequest.ParseInt | driver-ui/src/main/java/eu/tsystems/mms/tic/testframework/webdrivermanager/DesktopWebDriverRequest.java:102-103 | `parseInt` of a digit run succeeds iff the value fits an int. |
| DesktopWebDriverRequest.WindowSize | driver-ui/src/main/java/eu/tsystems/mms/tic/testframework/webdrivermanager/DesktopWebDriverRequest.java:91-110 | No property, or no match, gives 1920×1080. Otherwise the result is exactly the two digit groups of the leftmost match, read as numbers, or NumberFormatException when either exceeds Integer.MAX_VALUE. |
| DesktopWebDriverRequest.WindowSizeFindsEmbedded | driver-ui/src/main/java/eu/tsystems/mms/tic/testframework/webdrivermanager/DesktopWebDriverRequest.java:98-103 | The first WxH anywhere in the value is used; this is a search, not a full match. |
| DesktopWebDriverRequest.WindowSizeRoundTrip | driver-ui/src/main/java/eu/tsystems/mms/tic/testframework/webdrivermanager/DesktopWebDriverRequest.java:98-103 | "WxH" written from two ints reads back as the same size. |
| DesktopWebDriverRequest.WindowSizeOverflowThrows | driver-ui/src/main/java/eu/tsystems/mms/tic/testframework/webdrivermanager/DesktopWebDriverRequest.java:102-103 | A width beyond Integer.MAX_VALUE raises instead of falling back to the default. |
| DesktopWebDriverRequest.ServerUrl | driver-ui/src/main/java/eu/tsystems/mms/tic/testframework/webdrivermanager/DesktopWebDriverRequest.java:61-73 | A present URL is kept. Otherwise the candidate is the first valid of the property and the host:port default, and it is returned iff it is well-formed; if not, the RuntimeException is raised. |
| DesktopWebDriverRequest.FirstValid | driver-ui/src/main/java/eu/tsystems/mms/tic/testframework/webdrivermanager/DesktopWebDriverRequest.java:66-68 | A set, non-empty property is returned; an absent or empty one gives the fallback. |
| DesktopWebDriverRequest.ServerUrlChoice | driver-ui/src/main/java/eu/tsystems/mms/tic/testframework/webdrivermanager/DesktopWebDriverRequest.java:63-70 | Without a URL set, a non-empty SELENIUM_SERVER_URL is used, and otherwise http://<host>:<port>/wd/hub. That URL is returned iff it is well-formed; otherwise the RuntimeException is raised. |
| DesktopWebDriverRequest.ServerUrlStable | driver-ui/src/main/java/eu/tsystems/mms/tic/testframework/webdrivermanager/DesktopWebDriverRequest.java:61-73 | A default is filled in only when no URL is present: asking again returns the same URL. |
| DimensionPattern.Find | driver-ui/src/main/java/eu/tsystems/mms/tic/testframework/webdrivermanager/DesktopWebDriverRequest.java:98-100 | `Matcher.find` for (\d+)x(\d+) returns the leftmost match, or none iff there is no match anywhere. |
| DimensionPattern.FindEmbedded | driver-ui/src/main/java/eu/tsystems/mms/tic/testframework/webdrivermanager/DesktopWebDriverRequest.java:98-103 | After a digit-free prefix, the leftmost match starts right after the prefix, and its groups are the two numbers. |
| Defaults.Load | core/src/main/java/eu/tsystems/mms/tic/testframework/internal/Defaults.java:34-42 | The value is the property, or the default when the property is absent. It is returned unchanged iff the pattern is found in it. Otherwise the exception names the property, the pattern and the value. |
| Defaults.DefaultResolutionLoads | core/src/main/java/eu/tsystems/mms/tic/testframework/internal/Defaults.java:44 | The default "1920x1200" satisfies \d+x\d+. |
| Defaults.ResolutionWithoutDimensionFails | core/src/main/java/eu/tsystems/mms/tic/testframework/internal/Defaults.java:37-40 | A value with no 'x' is refused. |
| CapabilityLogHelper.Insert | driver-ui/src/main/java/eu/tsystems/mms/tic/testframework/webdrivermanager/WebDriverCapabilityLogHelper.java:51 | Inserting into a TreeMap keeps the keys strictly sorted and adds exactly the new entry. |
| CapabilityLogHelper.ToTreeMap | driver-ui/src/main/java/eu/tsystems/mms/tic/testframework/webdrivermanager/WebDriverCapabilityLogHelper.java:51 | The TreeMap copy holds exactly the input entries, with strictly increasing keys. |
| CapabilityLogHelper.LessTotal | driver-ui/src/main/java/eu/tsystems/mms/tic/testframework/webdrivermanager/WebDriverCapabilityLogHelper.java:51 | Two different keys are ordered one way or the other. |
| CapabilityLogHelper.LessTransitive | driver-ui/src/main/java/eu/tsystems/mms/tic/testframework/webdrivermanager/WebDriverCapabilityLogHelper.java:51 | The key order is transitive. |
| CapabilityLogHelper.Shorten | driver-ui/src/main/java/eu/tsystems/mms/tic/testframework/webdrivermanager/WebDriverCapabilityLogHelper.java:89 | A string of at least 10 characters becomes its first 10 plus "...", 13 in all. A shorter one makes substring throw. |
| CapabilityLogHelper.ShortenAll | driver-ui/src/main/java/eu/tsystems/mms/tic/testframework/webdrivermanager/WebDriverCapabilityLogHelper.java:87-91 | A list is shortened iff every element has at least 10 characters, keeping length and order. A non-list throws ClassCastException. |
| CapabilityLogHelper.ShortenExtensions | driver-ui/src/main/java/eu/tsystems/mms/tic/testframework/webdrivermanager/WebDriverCapabilityLogHelper.java:73-82 | A non-empty "extensions" list becomes the list of its shortened strings; an empty or absent one is kept. Every other entry keeps its key, place and value. It fails iff an "extensions" entry exists and cannot be shortened. |
| CapabilityLogHelper.ShortenChromeOptions | driver-ui/src/main/java/eu/tsystems/mms/tic/testframework/webdrivermanager/WebDriverCapabilityLogHelper.java:68-77 | Absent chrome options leave the map as it is. Chrome options that are not a map throw ClassCastException. Otherwise the options become their shortened copy, which fails iff shortening their extensions fails. No other entry changes. |
| CapabilityLogHelper.ShortChromeExtensionStrings | driver-ui/src/main/java/eu/tsystems/mms/tic/testframework/webdrivermanager/WebDriverCapabilityLogHelper.java:66-85 | Only the top-level "extensions" and the chrome options change; every other entry is untouched. The chrome options end up as their own extensions-shortened copy. A non-map chrome options value throws ClassCastException. It fails iff the chrome options are refused or the top-level extensions cannot be shortened; on success the top-level "extensions" value is the shortened one. |
| CapabilityLogHelper.Clean | driver-ui/src/main/java/eu/tsystems/mms/tic/testframework/webdrivermanager/WebDriverCapabilityLogHelper.java:48-58 | The result has strictly sorted keys, and exactly the input's keys. It throws iff the chrome options are not a map or hold unshortenable extensions, or the top-level extensions cannot be shortened. The top-level "extensions" value is the shortened one, and the chrome options become their extensions-shortened copy. |
| CapabilityLogHelper.CleanShortensChromeExtensions | driver-ui/src/main/java/eu/tsystems/mms/tic/testframework/webdrivermanager/WebDriverCapabilityLogHelper.java:68-77 | After clean, the chrome options' own "extensions" value is shortened in the same way as the top-level one. |
| CapabilityLogHelper.CleanKeepsOtherCapabilities | driver-ui/src/main/java/eu/tsystems/mms/tic/testframework/webdrivermanager/WebDriverCapabilityLogHelper.java:66-85 | Any capability other than "extensions" and the chrome options reads back with its original value. |
| CapabilityLogHelper.GetPermutation | driver-ui/src/main/java/eu/tsystems/mms/tic/testframework/webdrivermanager/WebDriverCapabilityLogHelper.java:51 | Looking up a key does not depend on the order of a map with distinct keys. |
| CapabilityLogHelper.ShortenedExtensionsShape | driver-ui/src/main/java/eu/tsystems/mms/tic/testframework/webdrivermanager/WebDriverCapabilityLogHelper.java:74-82 | In any capabilities map with acceptable chrome options, clean turns a non-empty "extensions" list of long strings into the list of their 10-character heads plus "...", in order. |
| CapabilityLogHelper.EmptyExtensionsKept | driver-ui/src/main/java/eu/tsystems/mms/tic/testframework/webdrivermanager/WebDriverCapabilityLogHelper.java:75 | An empty extensions list is not replaced. |
| TestNGHelper.FirstReturning | core/src/main/java/eu/tsystems/mms/tic/testframework/report/utils/TestNGHelper.java:40-49 | The position of the first getter that returns a value, or none iff no getter does. |
| TestNGHelper.TryAny | core/src/main/java/eu/tsystems/mms/tic/testframework/report/utils/TestNGHelper.java:38-53 | Succeeds iff the array is non-null and some getter returns a value. That value is the first one returned. Otherwise "Could not get <scope>" is raised. |
| TestNGHelper.TryAnyIsFirstReturning | core/src/main/java/eu/tsystems/mms/tic/testframework/report/utils/TestNGHelper.java:40-49 | tryAny gives the first returning getter's value; throwing and null-returning getters are skipped. |
| TestNGHelper.LaterGettersIgnored | core/src/main/java/eu/tsystems/mms/tic/testframework/report/utils/TestNGHelper.java:43-45 | Getters after the first success are never run: what they would do does not change the result. |
| TestNGHelper.TryTwo | core/src/main/java/eu/tsystems/mms/tic/testframework/report/utils/TestNGHelper.java:55-84 | getSuiteName, getTestName and getTestMethod each try two getters: the first one's value if it returns, else the second one's, else "Could not get <scope>". |
| TestNGHelper.TestClass | core/src/main/java/eu/tsystems/mms/tic/testframework/report/utils/TestNGHelper.java:70-77 | Four sources are tried in the listed order. The result is the value of the first source that returns, and the call fails iff none returns. |
| EventsFinishWorker.VisualizerDataSet | core/src/main/java/eu/tsystems/mms/tic/testframework/execution/testng/worker/finish/FennecEventsFinishWorker.java:42-47 | A span (in long arithmetic) over 10 keeps the end; any shorter span moves the end to start + 10 (wrapped as a long). Either way the span is then at least 10. |
| EventsFinishWorker.SpanAfterWidening | core/src/main/java/eu/tsystems/mms/tic/testframework/execution/testng/worker/finish/FennecEventsFinishWorker.java:45-47 | Widening gives a span of exactly 10, even when start + 10 overflows. |
| EventsFinishWorker.VisualizerDataSetIdempotent | core/src/main/java/eu/tsystems/mms/tic/testframework/execution/testng/worker/finish/FennecEventsFinishWorker.java:42-47 | Widening a widened bar changes nothing. |
| EventsFinishWorker.EndEvents | core/src/main/java/eu/tsystems/mms/tic/testframework/execution/testng/worker/finish/FennecEventsFinishWorker.java:67-119 | A test fires TEST_METHOD_END first, with the unwidened end − start. A configuration method fires CONFIGURATION_METHOD_END alone. |
| EventsFinishWorker.Run | core/src/main/java/eu/tsystems/mms/tic/testframework/execution/testng/worker/finish/FennecEventsFinishWorker.java:57-126 | The timer is always cleaned last. A method that was not invoked does nothing else. An invoked one first adds its visualizer bar and then fires its end events in order. |
| EventsFinishWorker.Fired | core/src/main/java/eu/tsystems/mms/tic/testframework/execution/testng/worker/finish/FennecEventsFinishWorker.java:57-126 | The fired events are exactly the Fire effects. |
| EventsFinishWorker.NotInvokedFiresNothing | core/src/main/java/eu/tsystems/mms/tic/testframework/execution/testng/worker/finish/FennecEventsFinishWorker.java:58-125 | A method that was not invoked fires no event, and the timer is still cleaned. |
| EventsFinishWorker.InvokedFiresEndEvents | core/src/main/java/eu/tsystems/mms/tic/testframework/execution/testng/worker/finish/FennecEventsFinishWorker.java:58-120 | An invoked method fires exactly its end events, in order. |
| EventsFinishWorker.TestEvents | core/src/main/java/eu/tsystems/mms/tic/testframework/execution/testng/worker/finish/FennecEventsFinishWorker.java:67-107 | TEST_METHOD_END is first. TEST_WITH_FILTERED_THROWABLE is fired iff the test failed with a filtered throwable. FIRST_FAILED_TEST is fired iff it failed while all tests had passed, and then comes last. |
| EventsFinishWorker.ConfigurationEvents | core/src/main/java/eu/tsystems/mms/tic/testframework/execution/testng/worker/finish/FennecEventsFinishWorker.java:108-119 | A configuration method fires only CONFIGURATION_METHOD_END. |
| Point2D.Copy | image-processing/src/main/java/eu/tsystems/mms/tic/testframework/layout/core/Point2D.java:33-36 | The copy constructor gives a point equal to its argument. |
| Point2D.EqualsIsValueEquality | image-processing/src/main/java/eu/tsystems/mms/tic/testframework/layout/core/Point2D.java:69-79 | `equals` holds iff both coordinates are equal. |
| Point2D.Add | image-processing/src/main/java/eu/tsystems/mms/tic/testframework/layout/core/Point2D.java:115-117 | `add` always gives an int pair, and it is the componentwise sum whenever that fits. |
| Point2D.AddCommutes | image-processing/src/main/java/eu/tsystems/mms/tic/testframework/layout/core/Point2D.java:115-117 | `add` does not depend on the order of its operands. |
| Point2D.Subtract | image-processing/src/main/java/eu/tsystems/mms/tic/testframework/layout/core/Point2D.java:99-101 | `subtractPoint` always gives an int pair, and it is the componentwise difference whenever that fits. |
| Point2D.AddThenSubtract | image-processing/src/main/java/eu/tsystems/mms/tic/testframework/layout/core/Point2D.java:99-117 | p.add(q).subtractPoint(q) equals p, even when the sum overflows. |
| Point2D.SubtractThenAdd | image-processing/src/main/java/eu/tsystems/mms/tic/testframework/layout/core/Point2D.java:99-117 | p.subtractPoint(q).add(q) equals p. |
| Point2D.Neighbor | image-processing/src/main/java/eu/tsystems/mms/tic/testframework/layout/core/Point2D.java:43-45 | `getNeighbor` is the point added to the direction vector. |
| Point2D.MoveX | image-processing/src/main/java/eu/tsystems/mms/tic/testframework/layout/core/Point2D.java:107-109 | `moveX` keeps y, and equals adding (dx, 0). |
| Point2D.MoveY | image-processing/src/main/java/eu/tsystems/mms/tic/testframework/layout/core/Point2D.java:111-113 | `moveY` keeps x, and equals adding (0, dy). |
| Point2D.MovesCommute | image-processing/src/main/java/eu/tsystems/mms/tic/testframework/layout/core/Point2D.java:43-45 | Moving along x then y equals moving along y then x, and equals one neighbour step. |
| Point2D.CopyPosition | image-processing/src/main/java/eu/tsystems/mms/tic/testframework/layout/core/Point2D.java:86-89 | `copyPosition` gives coordinates equal to the argument's. |
| Point2D.ToString | image-processing/src/main/java/eu/tsystems/mms/tic/testframework/layout/core/Point2D.java:81-84 | `toString` is bracketed: it starts with '[' and ends with ']'. |
| Point2D.ToStringRoundTrip | image-processing/src/main/java/eu/tsystems/mms/tic/testframework/layout/core/Point2D.java:81-84 | "[x, y]" reads back as the same point. |
| NumberUtils.AverageValue | fennec-core/src/main/java/eu/tsystems/mms/tic/testframework/utils/NumberUtils.java:40-56 | A null list raises, and an empty list gives 0. A null element makes the unboxing throw NullPointerException. Otherwise the result is the long running total divided by the size, truncated toward zero. |
| NumberUtils.MaxOf | fennec-core/src/main/java/eu/tsystems/mms/tic/testframework/utils/NumberUtils.java:73 | The maximum is an element no smaller than any element. |
| NumberUtils.MinOf | fennec-core/src/main/java/eu/tsystems/mms/tic/testframework/utils/NumberUtils.java:92 | The minimum is an element no larger than any element. |
| NumberUtils.MaxValue | fennec-core/src/main/java/eu/tsystems/mms/tic/testframework/utils/NumberUtils.java:63-75 | A null list raises and an empty list gives null. A one-element list gives its element, null included. A null among two or more elements throws NullPointerException. Otherwise the result is an element no smaller than any other. |
| NumberUtils.MinValue | fennec-core/src/main/java/eu/tsystems/mms/tic/testframework/utils/NumberUtils.java:82-94 | A null list raises and an empty list gives null. A one-element list gives its element, null included. A null among two or more elements throws NullPointerException. Otherwise the result is an element no larger than any other. |
| NumberUtils.AverageBetweenMinAndMax | fennec-core/src/main/java/eu/tsystems/mms/tic/testframework/utils/NumberUtils.java:50-55 | When the long total does not overflow, min ≤ average ≤ max. |
| ElementBounds.Subject | driver-ui/src/main/java/eu/tsystems/mms/tic/testframework/pageobjects/internal/asserts/DefaultHorizontalDistanceAssertion.java:48 | The subject is "<name>(<element>)". |
| ElementBounds.SubjectRoundTrip | driver-ui/src/main/java/eu/tsystems/mms/tic/testframework/pageobjects/internal/asserts/DefaultHorizontalDistanceAssertion.java:48 | A subject parses back as a subject of its function name, with its element; different elements give different subjects. |
| HorizontalDistanceAssertion.ToRightOf | driver-ui/src/main/java/eu/tsystems/mms/tic/testframework/pageobjects/internal/asserts/DefaultHorizontalDistanceAssertion.java:42-43 | `toRightOf` is an int, equal to actual − (x + width) when nothing overflows, and to toLeftOf of actual − width in all cases. |
| HorizontalDistanceAssertion.ToLeftOf | driver-ui/src/main/java/eu/tsystems/mms/tic/testframework/pageobjects/internal/asserts/DefaultHorizontalDistanceAssertion.java:58-59 | `toLeftOf` is an int, equal to actual − x when that does not overflow. |
| HorizontalDistanceAssertion.LeftMinusRightIsWidth | driver-ui/src/main/java/eu/tsystems/mms/tic/testframework/pageobjects/internal/asserts/DefaultHorizontalDistanceAssertion.java:42-59 | toLeftOf − toRightOf equals the reference's width, modulo 2^32. |
| HorizontalDistanceAssertion.LeftMinusRightExact | driver-ui/src/main/java/eu/tsystems/mms/tic/testframework/pageobjects/internal/asserts/DefaultHorizontalDistanceAssertion.java:42-59 | Without overflow, toLeftOf − toRightOf is exactly the width. |
| HorizontalDistanceAssertion.RightSubject | driver-ui/src/main/java/eu/tsystems/mms/tic/testframework/pageobjects/internal/asserts/DefaultHorizontalDistanceAssertion.java:48 | The subject is exactly "toRightOf(<element>)", and it parses back to the element. |
| HorizontalDistanceAssertion.LeftSubject | driver-ui/src/main/java/eu/tsystems/mms/tic/testframework/pageobjects/internal/asserts/DefaultHorizontalDistanceAssertion.java:64 | The subject is exactly "toLeftOf(<element>)", and it parses back to the element. |
| VerticalDistanceAssertion.ToTopOf | driver-ui/src/main/java/eu/tsystems/mms/tic/testframework/pageobjects/internal/asserts/DefaultVerticalDistanceAssertion.java:17-18 | `toTopOf` is an int, equal to actual − y when that does not overflow. |
| VerticalDistanceAssertion.ToBottomOf | driver-ui/src/main/java/eu/tsystems/mms/tic/testframework/pageobjects/internal/asserts/DefaultVerticalDistanceAssertion.java:33-34 | `toBottomOf` is an int, equal to actual − (y + height) when nothing overflows, and to toTopOf of actual − height in all cases. |
| VerticalDistanceAssertion.TopMinusBottomIsHeight | driver-ui/src/main/java/eu/tsystems/mms/tic/testframework/pageobjects/internal/asserts/DefaultVerticalDistanceAssertion.java:17-34 | toTopOf − toBottomOf equals the reference's height, modulo 2^32. |
| VerticalDistanceAssertion.TopMinusBottomExact | driver-ui/src/main/java/eu/tsystems/mms/tic/testframework/pageobjects/internal/asserts/DefaultVerticalDistanceAssertion.java:17-34 | Without overflow, toTopOf − toBottomOf is exactly the height. |
| VerticalDistanceAssertion.TopSubject | driver-ui/src/main/java/eu/tsystems/mms/tic/testframework/pageobjects/internal/asserts/DefaultVerticalDistanceAssertion.java:23 | The subject is exactly "toTopOf(guiElement: <element>)", and it parses back to "guiElement: <element>". |
| VerticalDistanceAssertion.BottomSubject | driver-ui/src/main/java/eu/tsystems/mms/tic/testframework/pageobjects/internal/asserts/DefaultVerticalDistanceAssertion.java:39 | The subject is exactly "toBottomOf(guiElement: <element>)", and it parses back to "guiElement: <element>". |
| AmbiguousMatchDetector.Errors | image-processing/src/main/java/eu/tsystems/mms/tic/testframework/layout/matching/detection/AmbiguousMatchDetector.java:35-44 | At most one error per node, each for an ambiguous node in the list. |
| AmbiguousMatchDetector.FindFeatures | image-processing/src/main/java/eu/tsystems/mms/tic/testframework/layout/matching/detection/AmbiguousMatchDetector.java:34-45 | The loop reports the errors of the filter. |
| AmbiguousMatchDetector.ReportedPositions | image-processing/src/main/java/eu/tsystems/mms/tic/testframework/layout/matching/detection/AmbiguousMatchDetector.java:36-43 | A node's position is reported iff the node has more than one template edge and no edge to the same location; positions are strictly increasing. |
| AmbiguousMatchDetector.ErrorsAreOrderedFilter | image-processing/src/main/java/eu/tsystems/mms/tic/testframework/layout/matching/detection/AmbiguousMatchDetector.java:35-44 | The errors are exactly the ambiguous nodes, once each, in node order. |

## Left out

- Image I/O is not modelled: reading and writing PNG files, `ImageIO` and the annotated-image files. Images are given as pixel arrays.
- The "darker" painting of the distance image (LayoutCheck.java:346-360) only affects the written image, not the distance.
- The distance is not modelled as a double. It is an exact ratio `num/den` or `NaN`; the later rounding with `BigDecimal.HALF_UP` is out of scope.
- LayoutCheck: regions are rectangles with non-negative origin and extent. A `java.awt.Rectangle` with a negative x or y passes the upper-bound-only `isPixelInImageBounds` and makes `getRGB` throw, and a negative width or height changes `totalPixels`; neither is modelled.
- LayoutCheck: the `NonFunctionalAssert.fail` raised when the two images differ in size (LayoutCheck.java:320-330) is not modelled, because `NonFunctionalAssert` is not part of this model. The model takes the comparison to go on over the canvas, as a non-functional assertion that does not stop the test would.
- LayoutCheck.CountPixels: the `int` accumulation of `totalPixels` in the source can overflow for huge regions; the model counts with unbounded naturals.
- LayoutCheck.CountPixels: a cell of an annotated region beyond the canvas (regions not `InsideCanvas`) is counted as outside both images, where `setRGB` on the canvas-sized distance image at LayoutCheck.java:400 throws `ArrayIndexOutOfBoundsException`.
- LayoutCheck.PixelDistance: for annotated regions that are not `InsideCanvas`, the source throws at LayoutCheck.java:400 while the model still returns a distance. `OnlyAnnotationsLeaveCanvas` states that only annotations can cause this.
- LayoutCheck.GenerateDistance: the same gap as `PixelDistance`: its loops accept cells beyond the canvas, where the source throws at LayoutCheck.java:400.
- Point2D: `hashCode`, the Euclidean-distance methods, `multiplyWith` and the `double` constructor are not modelled, because they are floating-point code.
- Point2D: `moveX`, `moveY` and `copyPosition` mutate the point in place, so every reference to it sees the change. The model returns the moved point as a new value and does not model aliasing.
- NumberUtils.MaxOf, NumberUtils.MinOf: the generic `Comparable` element type is taken to be an integer.
- GuiElement: the `Timer`/retry internals of the core and the WebDriver calls behind `isPresent`, `isDisplayed` and `getNumberOfFoundElements` are given as `Lookup` answers.
- Page: the error log and the method-context priority message for safari and phantomjs (Page.java:192-201) are side effects that leave the frame scan unchanged; they are not modelled.
- Page: `Thread.sleep`, the WebDriver frame switching and the `waitFactory` timers are not modelled. The search sees the frame tree as a value, and the wait outcomes are given.
- PageFactory: the `ClassFinder` lookup, the page constructor and `checkPage` are parameters of the environment. The `ThreadLocal` state is modelled for one thread.
- PageFactory.Push: `NR_OF_LOOPS` comes from the `Fennec_PAGE_FACTORY_LOOPS` property, with default 20 (PageFactory.java:57). When the property is 0 or negative, `new CircularFifoBuffer(NR_OF_LOOPS)` at PageFactory.java:168 throws `IllegalArgumentException` on the first successful load. That error path is not modelled: every member here requires `nrOfLoops > 0`.
- PageFactory.PagesPrefix: `StringUtils.isStringEmpty` is not part of this model. It is taken to treat `null` and zero-length strings as empty. If it also treats blank strings as empty, a blank thread-local prefix does not override the global one in the source, while it does here.
- Page.SearchCorrect: the search is stated for the text itself, which is what the corrected locator `Page.TextArgument` searches for. For a text with an apostrophe, the source's locator searches for `Page.SearchedText` instead, and the rest of the text becomes XPath syntax: either malformed, or a different query. See Findings.
- CheckFieldAction: reflection is modelled as a given `FieldInfo`/`FieldRead`. The `additionalBeforeCheck` hook of subclasses is not modelled.
- MethodContextExporter.FilePath: a path is the directory, "/" and the name joined as strings; the normalisation `java.io.File` applies (duplicate or trailing separators) is not modelled.
- MethodContextExporter: ids from `IDUtils` are given. Timestamps and file sizes (`fillFileBasicData`) are left out. Paths are Unix paths, and directories are given as absolute strings. `annotationToString` and the remaining builder fields (error contexts, session contexts, status, annotations) are not modelled.
- StatisticsGenerator: `correctStatus` and the status counters are not modelled; only the grouping, identifiers, detail counts, failed-step lookup and screenshot ids are.
- UiTestUtils: the WebDriver calls (title, URL, window handles), the `PropertyManager` lookup and the string values of the `Screenshot.Meta` keys are inputs. A session whose capture throws is modelled as an `Err` element and dropped from the collected list; the exception handling inside `takeScreenshot` itself is not modelled.
- UiTestUtils.TakeScreenshot: the htmlunit check is case-insensitive for ASCII letters only. What `getRelatedWebDriverRequest` returns for a given (or `null`) driver is an input, because `WebDriverManager` is not part of this model.
- DesktopWebDriverRequest.FirstValid: `StringUtils.getFirstValidString` is not part of this model. It is taken to return the first argument that is neither `null` nor empty.
- DesktopWebDriverRequest.ServerUrl: whether a string is a well-formed `URL` is a parameter, because `java.net.URL` parsing is library code.
- CapabilityLogHelper: `null` capability values and the resulting `NullPointerException` are not modelled.
- CapabilityLogHelper.Clean: the TreeMap copy is shallow in the source, so the nested chrome options map is mutated in place and the caller's map changes too. The model returns a new value and does not state this side effect.
- CapabilityLogHelper.ShortChromeExtensionStrings: an unmodifiable chrome options map, whose `put` would throw, is not modelled.
- CapabilityLogHelper: `ChromeOptions.CAPABILITY` is taken to be "goog:chromeOptions".
- CapabilityLogHelper.LessTotal: keys are ordered by character code. This agrees with `String.compareTo` for text in the Basic Multilingual Plane, but not for surrogate pairs.
- TestNGHelper: the getter bodies (calls into TestNG objects) are abstracted as the outcome each one has when run.
- EventsFinishWorker: the following are left out:
  - event timestamps and the TestNG objects attached to events;
  - `Util.getFormattedContent`, whose output is the given content;
  - the answers of `RetryAnalyzer` and `TestStatusController`, which are given.
- EventsFinishWorker.EndEvents: `isFailed()` is assumed to give the same answer at both of its calls.
- Concurrency is not modelled: synchronized maps, thread-local state and event listeners running on other threads.

## Findings

| source | as written | input that shows it | evidently intended | confidence | as-written member | corrected member |
|---|---|---|---|---|---|---|
| image-processing/src/main/java/eu/tsystems/mms/tic/testframework/layout/LayoutCheck.java:415-421 | The distance is `pixelsInError / (totalPixels - noOfIgnoredPixels) * 100`, computed in double with no guard. | In ignore-colour mode, a reference image made entirely of the ignore colour ignores every pixel. In area-colour mode, an annotation list with no areas compares nothing. Both give 0/0, so the distance is NaN, which `new BigDecimal` at :488 and :518 rejects. | A comparison in which nothing was compared has distance 0, so every result is a number in [0, 100]. | not executed | LayoutCheck.PixelDistance, LayoutCheck.UniformReferenceIsNaN, LayoutCheck.NoAnnotatedAreaIsNaN | LayoutCheck.PixelDistanceCorrected, LayoutCheck.CorrectedAgreesWhenDefined |
| report-model/src/main/java/eu/tsystems/mms/tic/testframework/adapters/MethodContextExporter.java:263-266 | The sources file is built from `screenshot.filename`, so the sources record points at the PNG image. The line using `sourceFilename` is commented out. | The report is in `/report` and the screenshot is `a.png` with sources `a.html`. The plain-text sources record then has path `screenshots/a.png` instead of `screenshots/a.html`. | The sources record points at the screenshot's page-source file, `sourceFilename`. | not executed | MethodContextExporter.ExportScreenshotsAsWritten, MethodContextExporter.SourcesRecordCounterexample | MethodContextExporter.ExportScreenshots, MethodContextExporter.ScreenshotRecordsLinked |
| driver-ui/src/main/java/eu/tsystems/mms/tic/testframework/pageobjects/Page.java:164-172 | The text is put between the apostrophes of `//text()[contains(., '…')]/..` without escaping. | For the text `Don't`, the literal ends after `Don` and the remaining `t')]/..` leaves the locator malformed. A text such as `a') or ('1'='1` yields a valid locator that asks a different question. | The locator searches for the text as given, whatever characters it holds, quoted as an XPath string expression. | not executed | Page.SearchedText, Page.ApostropheTruncatesSearch | Page.TextArgument, Page.SearchedTextIntendedIff |
