/** `GuiElement`: the decorator layers around an element's core, the XPath
    built from the parent chain, the "not found" fallbacks of its property
    assertions, the cached assertion objects and the timeout setter. */
module GuiElement {
  import opened Wrappers
  import opened JavaInt
  import opened Strings

  // ---------------------------------------------------------------- layers

  /** The objects stacked by `createDecorators`, from the core outwards. */
  datatype Layer =
    | Core
    | FrameAwareDecorator
    | SequenceDecorator
    | DefaultFacade
    | LoggingDecorator
    | DelayActions(delayBeforeAction: int, delayAfterAction: int)

  /** A frame of the element's frame chain; the frames themselves are not
      looked into. */
  datatype Frame = Frame(name: string)

  /** The frame logic is set only for a non-null, non-empty frames array. */
  predicate HasFrameLogic(frames: Option<seq<Frame>>) {
    frames.Some? && |frames.value| > 0
  }

  /** `Long.intValue()` of the delay properties. */
  function IntValue(l: int): (i: int)
    requires IsInt64(l)
    ensures IsInt32(i)
    ensures IsInt32(l) ==> i == l
    ensures (i - l) % TWO_32 == 0
  {
    Wrap32Residue(l);
    Wrap32(l)
  }

  /** `createDecorators`: the layers from the core outwards, for a core with
      or without frame logic and the two delay properties (as `long`s). */
  function CreateDecorators(hasFrameLogic: bool, delayAfterProperty: int, delayBeforeProperty: int): (layers: seq<Layer>)
    requires IsInt64(delayAfterProperty) && IsInt64(delayBeforeProperty)
    ensures |layers| >= (if hasFrameLogic then 5 else 4) && layers[0] == Core
    ensures FrameAwareDecorator in layers <==> hasFrameLogic
    ensures hasFrameLogic ==> layers[1] == FrameAwareDecorator
    ensures var facade := if hasFrameLogic then 2 else 1;
            layers[facade..facade + 3] == [SequenceDecorator, DefaultFacade, LoggingDecorator]
    ensures (exists k :: 0 <= k < |layers| && layers[k].DelayActions?)
            <==> IntValue(delayAfterProperty) > 0 || IntValue(delayBeforeProperty) > 0
    ensures layers[|layers| - 1].DelayActions? ==>
              layers[|layers| - 1] == DelayActions(IntValue(delayBeforeProperty), IntValue(delayAfterProperty))
  {
    var core := if hasFrameLogic then [Core, FrameAwareDecorator] else [Core];
    var facade := core + [SequenceDecorator, DefaultFacade, LoggingDecorator];
    var delayAfterAction := IntValue(delayAfterProperty);
    var delayBeforeAction := IntValue(delayBeforeProperty);
    if delayAfterAction > 0 || delayBeforeAction > 0 then
      var layers := facade + [DelayActions(delayBeforeAction, delayAfterAction)];
      assert layers[|layers| - 1].DelayActions?;
      layers
    else
      assert forall k :: 0 <= k < |facade| ==> !facade[k].DelayActions?;
      facade
  }

  /** Each layer wraps the one before it: the order of the stack as a
      relation between neighbouring layers. */
  predicate Wraps(outer: Layer, inner: Layer) {
    match outer
    case Core => false
    case FrameAwareDecorator => inner == Core
    case SequenceDecorator => inner == Core || inner == FrameAwareDecorator
    case DefaultFacade => inner == SequenceDecorator
    case LoggingDecorator => inner == DefaultFacade
    case DelayActions(_, _) => inner == LoggingDecorator
  }

  predicate WellStacked(layers: seq<Layer>) {
    |layers| > 0 && layers[0] == Core
    && forall k :: 0 < k < |layers| ==> Wraps(layers[k], layers[k - 1])
  }

  /** Whatever the configuration, the stack is well ordered and has no layer
      twice. */
  lemma DecoratorsWellStacked(hasFrameLogic: bool, delayAfterProperty: int, delayBeforeProperty: int)
    requires IsInt64(delayAfterProperty) && IsInt64(delayBeforeProperty)
    ensures var layers := CreateDecorators(hasFrameLogic, delayAfterProperty, delayBeforeProperty);
            WellStacked(layers)
            && forall k, l :: 0 <= k < l < |layers| ==> layers[k] != layers[l]
  {
    var layers := CreateDecorators(hasFrameLogic, delayAfterProperty, delayBeforeProperty);
    forall k | 0 < k < |layers| ensures Wraps(layers[k], layers[k - 1]) {
    }
  }

  /** The `(driver, locate, frames)` constructor: the frame-aware layer is
      present iff frames were given. */
  lemma FrameLayerIffFrames(frames: Option<seq<Frame>>, delayAfterProperty: int, delayBeforeProperty: int)
    requires IsInt64(delayAfterProperty) && IsInt64(delayBeforeProperty)
    ensures FrameAwareDecorator in CreateDecorators(HasFrameLogic(frames), delayAfterProperty, delayBeforeProperty)
            <==> frames.Some? && frames.value != []
  {
  }

  // ----------------------------------------------------------------- XPath

  /** An object with a parent. A `UiElement` is or is not also a
      `BasicUiElement`; `Other` stands for a page object or `null`. */
  datatype Node =
    | UiElementNode(xPath: string, isBasic: bool, parent: Node)
    | BasicNode(parent: Node)
    | Other

  /** The XPath a node adds itself. */
  function OwnXPath(n: Node): seq<string> {
    if n.UiElementNode? then [n.xPath] else []
  }

  /** Whether the climb continues to this parent. */
  predicate Climbs(n: Node) {
    (n.UiElementNode? && n.isBasic) || n.BasicNode?
  }

  /** The XPaths collected from a visited node upwards, outermost first. */
  function Collected(n: Node): seq<string>
    requires n != Other
  {
    (if Climbs(n.parent) then Collected(n.parent) else []) + OwnXPath(n)
  }

  /** `createXPath`: the do-while climb over the parents, prepending each
      element's XPath, then `String.join("", …)`. */
  method CreateXPath(self: Node) returns (xPath: string)
    requires self.UiElementNode?
    ensures xPath == Join("", Collected(self))
  {
    var xPathes: seq<string> := [];
    var element := self;
    while true
      invariant element != Other
      invariant Collected(element) + xPathes == Collected(self)
      decreases element
    {
      var next := element.parent;
      assert Collected(element) == (if Climbs(next) then Collected(next) else []) + OwnXPath(element);
      if element.UiElementNode? {
        xPathes := [element.xPath] + xPathes;
      }
      if !Climbs(next) {
        assert xPathes == Collected(self);
        break;
      }
      element := next;
    }
    xPath := Join("", xPathes);
  }

  /** A chain of elements, all `BasicUiElement`s, under a non-element top:
      `xPaths[0]` is the outermost. */
  function Chain(xPaths: seq<string>): (n: Node)
    requires |xPaths| > 0
    ensures n.UiElementNode?
  {
    if |xPaths| == 1 then UiElementNode(xPaths[0], true, Other)
    else UiElementNode(xPaths[|xPaths| - 1], true, Chain(xPaths[..|xPaths| - 1]))
  }

  /** For such a chain the XPath is every locator's XPath, outermost
      ancestor first. */
  lemma {:induction false} ChainCollectsAll(xPaths: seq<string>)
    requires |xPaths| > 0
    ensures Collected(Chain(xPaths)) == xPaths
  {
    if |xPaths| > 1 {
      ChainCollectsAll(xPaths[..|xPaths| - 1]);
    }
  }

  /** The climb stops below a parent that is not a `BasicUiElement`: what
      lies above it contributes nothing. */
  lemma StopsAtNonBasicParent(xPath: string, parent: Node)
    requires !Climbs(parent)
    ensures Collected(UiElementNode(xPath, true, parent)) == [xPath]
  {
  }

  // -------------------------------------------------- not-found fallbacks

  /** What a core lookup produces: a value, `ElementNotFoundException`, or
      another exception that propagates. */
  datatype Lookup<T> = Found(value: T) | NotFound | Failure(message: string)

  /** `present()`: a found web element that is non-null; false when not
      found. */
  function Present(findWebElement: Lookup<bool>): (r: Result<bool, string>)
    ensures findWebElement.NotFound? ==> r == Ok(false)
    ensures findWebElement.Found? ==> r == Ok(findWebElement.value)
    ensures findWebElement.Failure? ==> r == Err(findWebElement.message)
  {
    match findWebElement
    case Found(nonNull) => Ok(nonNull)
    case NotFound => Ok(false)
    case Failure(m) => Err(m)
  }

  /** `displayed()`: the core's answer, false when not found. */
  function Displayed(isDisplayed: Lookup<bool>): (r: Result<bool, string>)
    ensures isDisplayed.NotFound? ==> r == Ok(false)
    ensures isDisplayed.Found? ==> r == Ok(isDisplayed.value)
    ensures isDisplayed.Failure? ==> r == Err(isDisplayed.message)
  {
    match isDisplayed
    case Found(b) => Ok(b)
    case NotFound => Ok(false)
    case Failure(m) => Err(m)
  }

  /** `numberOfElements()`: the core's count, 0 when not found. */
  function NumberOfElements(count: Lookup<nat>): (r: Result<nat, string>)
    ensures count.NotFound? ==> r == Ok(0)
    ensures count.Found? ==> r == Ok(count.value)
    ensures count.Failure? ==> r == Err(count.message)
  {
    match count
    case Found(n) => Ok(n)
    case NotFound => Ok(0)
    case Failure(m) => Err(m)
  }

  /** Not finding the element never raises from these three, and a displayed
      or present element implies at least that the lookup succeeded. */
  lemma NotFoundNeverRaises(present: Lookup<bool>, displayed: Lookup<bool>, count: Lookup<nat>)
    ensures present.NotFound? ==> Present(present).Ok? && !Present(present).value
    ensures displayed.NotFound? ==> Displayed(displayed).Ok? && !Displayed(displayed).value
    ensures count.NotFound? ==> NumberOfElements(count).Ok? && NumberOfElements(count).value == 0
    ensures Present(present) == Ok(true) ==> present == Found(true)
    ensures Displayed(displayed) == Ok(true) ==> displayed == Found(true)
  {
  }

  // ------------------------------------------------------ cached asserts

  datatype Flavour = Instant | Collector | NonFunctional

  /** The element's assertion fields: which default was chosen, and every
      assertion object created so far, in creation order. */
  datatype AssertCache = AssertCache(defaultAssert: Option<Flavour>, created: seq<Flavour>)

  const EMPTY_CACHE: AssertCache := AssertCache(None, [])

  /** `instantAsserts()`, `assertCollector()`, `nonFunctionalAsserts()`:
      create the object on first use only. */
  function Get(cache: AssertCache, flavour: Flavour): (r: AssertCache)
    ensures flavour in r.created
    ensures flavour in cache.created ==> r == cache
    ensures r.defaultAssert == cache.defaultAssert
    ensures flavour !in cache.created ==> r.created == cache.created + [flavour]
  {
    if flavour in cache.created then cache
    else cache.(created := cache.created + [flavour])
  }

  /** `asserts()`: on first use, the collector if the property
      `DEFAULT_ASSERT_IS_COLLECTOR` is set, the instant variant otherwise;
      afterwards the cached choice, whatever the property says. */
  function Asserts(cache: AssertCache, defaultAssertIsCollector: bool): (r: (AssertCache, Flavour))
    ensures cache.defaultAssert.Some? ==> r.1 == cache.defaultAssert.value && r.0 == cache
    ensures cache.defaultAssert.None? ==> r.1 == (if defaultAssertIsCollector then Collector else Instant)
    ensures r.0.defaultAssert == Some(r.1)
    ensures cache.defaultAssert.None? ==> r.1 in r.0.created
  {
    match cache.defaultAssert
    case Some(f) => (cache, f)
    case None =>
      var f := if defaultAssertIsCollector then Collector else Instant;
      (Get(cache, f).(defaultAssert := Some(f)), f)
  }

  /** A call on the element's assertion API, with the property value seen
      at that moment. */
  datatype AssertCall = CallAsserts(defaultAssertIsCollector: bool) | CallFlavour(flavour: Flavour)

  function Step(cache: AssertCache, call: AssertCall): AssertCache {
    match call
    case CallAsserts(p) => Asserts(cache, p).0
    case CallFlavour(f) => Get(cache, f)
  }

  function Run(cache: AssertCache, calls: seq<AssertCall>): AssertCache
  {
    if |calls| == 0 then cache else Step(Run(cache, calls[..|calls| - 1]), calls[|calls| - 1])
  }

  predicate NoDuplicates<T(==)>(xs: seq<T>) {
    forall k, l :: 0 <= k < l < |xs| ==> xs[k] != xs[l]
  }

  predicate CacheInvariant(cache: AssertCache) {
    NoDuplicates(cache.created)
    && (cache.defaultAssert.Some? ==> cache.defaultAssert.value in cache.created)
    && (cache.defaultAssert.Some? ==> cache.defaultAssert.value != NonFunctional)
  }

  /** Over any sequence of calls each flavour is created at most once, and
      once `asserts()` has chosen, later calls keep that choice. */
  lemma {:induction false} RunKeepsInvariant(cache: AssertCache, calls: seq<AssertCall>)
    requires CacheInvariant(cache)
    ensures CacheInvariant(Run(cache, calls))
    ensures cache.defaultAssert.Some? ==> Run(cache, calls).defaultAssert == cache.defaultAssert
    ensures forall f :: f in cache.created ==> f in Run(cache, calls).created
  {
    if |calls| > 0 {
      var before := Run(cache, calls[..|calls| - 1]);
      RunKeepsInvariant(cache, calls[..|calls| - 1]);
      var after := Step(before, calls[|calls| - 1]);
      assert after == Run(cache, calls);
      assert forall f :: f in before.created ==> f in after.created;
    }
  }

  /** The default is fixed by the property value at the first `asserts()`
      call. */
  lemma FirstAssertsDecides(defaultAssertIsCollector: bool, later: seq<AssertCall>)
    ensures var first := Asserts(EMPTY_CACHE, defaultAssertIsCollector).0;
            Run(first, later).defaultAssert == Some(if defaultAssertIsCollector then Collector else Instant)
  {
    var first := Asserts(EMPTY_CACHE, defaultAssertIsCollector).0;
    assert CacheInvariant(first);
    RunKeepsInvariant(first, later);
  }

  // -------------------------------------------------------------- timeout

  /** The element data's timeout and the (shared) assertion factory's
      default timeout. */
  datatype Timeouts = Timeouts(elementTimeoutSeconds: int, factoryDefaultTimeoutSeconds: int)

  /** `setTimeoutInSeconds`: both are set to the new value. */
  function SetTimeoutInSeconds(t: Timeouts, timeoutInSeconds: int): (r: Timeouts)
    ensures r.elementTimeoutSeconds == timeoutInSeconds
    ensures r.factoryDefaultTimeoutSeconds == timeoutInSeconds
  {
    Timeouts(timeoutInSeconds, timeoutInSeconds)
  }

  /** `restoreDefaultTimeout`: only the element's timeout returns to the
      page default; the factory's default stays. */
  function RestoreDefaultTimeout(t: Timeouts, pageTimeoutSeconds: int): (r: Timeouts)
    ensures r.elementTimeoutSeconds == pageTimeoutSeconds
    ensures r.factoryDefaultTimeoutSeconds == t.factoryDefaultTimeoutSeconds
  {
    t.(elementTimeoutSeconds := pageTimeoutSeconds)
  }

  /** The last `setTimeoutInSeconds` wins, and it is what
      `getTimeoutInSeconds` reads back. */
  lemma SetTimeoutLastWins(t: Timeouts, a: int, b: int)
    ensures SetTimeoutInSeconds(SetTimeoutInSeconds(t, a), b) == SetTimeoutInSeconds(t, b)
    ensures SetTimeoutInSeconds(t, a).elementTimeoutSeconds == a
  {
  }
}
