/** `Page`: the null-driver guard, the performance-test think time, the
    field-action priority list, the recursive text search over a frame tree
    and the pass-state rules of the text waits and asserts. */
module Page {
  import opened Wrappers
  import opened JavaInt
  import opened Strings

  // ------------------------------------------------------------ construction

  /** A WebDriver session, only identified here. */
  datatype Driver = Driver(sessionId: string)

  const DRIVER_MUST_NOT_BE_NULL: string := "The driver object must not be null"

  /** The constructor: a null driver raises `IllegalArgumentException`;
      otherwise the page keeps the driver. */
  function NewPage(driver: Option<Driver>): (r: Result<Driver, string>)
    ensures driver.None? <==> r == Err(DRIVER_MUST_NOT_BE_NULL)
    ensures driver.Some? ==> r == Ok(driver.value)
  {
    match driver
    case None => Err(DRIVER_MUST_NOT_BE_NULL)
    case Some(d) => Ok(d)
  }

  // -------------------------------------------------------------- think time

  const RANDOM_DELTA: int := 2000

  /** `executeThinkTime`: the configured think time plus a random offset in
      [-2000, 2000), in `int` arithmetic, clamped at 0; no wait at all for a
      think time that is not positive. `randomValue` is the draw of
      `nextInt(4000)`. */
  function ThinkTime(thinkTime: int, randomValue: int): (timeToWait: int)
    requires IsInt32(thinkTime) && 0 <= randomValue < RANDOM_DELTA * 2
    ensures timeToWait >= 0
    ensures thinkTime <= 0 ==> timeToWait == 0
    ensures thinkTime > 0 ==> timeToWait <= thinkTime + RANDOM_DELTA - 1
    ensures thinkTime > 0 && IsInt32(thinkTime + (randomValue - RANDOM_DELTA)) ==>
              timeToWait == (if thinkTime + randomValue - RANDOM_DELTA < 0 then 0
                             else thinkTime + randomValue - RANDOM_DELTA)
    ensures thinkTime > 0 && !IsInt32(thinkTime + (randomValue - RANDOM_DELTA)) ==> timeToWait == 0
  {
    if thinkTime > 0 then
      var t := Wrap32(thinkTime + (randomValue - RANDOM_DELTA));
      if t < 0 then 0 else t
    else 0
  }

  /** A think time of at least 2000 ms is never shortened by more than the
      random delta, and never lengthened by more than the delta minus 1, for
      every possible draw. */
  lemma ThinkTimeWindow(thinkTime: int, randomValue: int)
    requires 2000 <= thinkTime <= INT_MAX - RANDOM_DELTA && 0 <= randomValue < RANDOM_DELTA * 2
    ensures thinkTime - RANDOM_DELTA <= ThinkTime(thinkTime, randomValue) <= thinkTime + RANDOM_DELTA - 1
    ensures ThinkTime(thinkTime, randomValue) == thinkTime + randomValue - RANDOM_DELTA
  {
  }

  // ------------------------------------------------------------ field actions

  /** A page field that carries an action configuration. */
  datatype Field = Field(name: string)

  datatype FieldAction =
    | SetNameFieldAction(field: Field)
    | SetGuiElementTimeoutFieldAction(field: Field)
    | GuiElementCheckFieldAction(field: Field)

  /** `getFieldActions`: the priority list, three actions per field in field
      order. */
  method GetFieldActions(fields: seq<Field>) returns (fieldActions: seq<FieldAction>)
    ensures |fieldActions| == 3 * |fields|
    ensures forall k :: 0 <= k < |fieldActions| ==> fieldActions[k].field == fields[k / 3]
    ensures forall i :: 0 <= i < |fields| ==>
              fieldActions[3 * i].SetNameFieldAction?
              && fieldActions[3 * i + 1].SetGuiElementTimeoutFieldAction?
              && fieldActions[3 * i + 2].GuiElementCheckFieldAction?
  {
    fieldActions := [];
    var i := 0;
    while i < |fields|
      invariant 0 <= i <= |fields|
      invariant |fieldActions| == 3 * i
      invariant forall k :: 0 <= k < |fieldActions| ==> fieldActions[k].field == fields[k / 3]
      invariant forall j :: 0 <= j < i ==>
                  fieldActions[3 * j].SetNameFieldAction?
                  && fieldActions[3 * j + 1].SetGuiElementTimeoutFieldAction?
                  && fieldActions[3 * j + 2].GuiElementCheckFieldAction?
    {
      var field := fields[i];
      fieldActions := fieldActions + [SetNameFieldAction(field), SetGuiElementTimeoutFieldAction(field),
                                      GuiElementCheckFieldAction(field)];
      i := i + 1;
    }
  }

  // ------------------------------------------------------------ text search

  const TEXT_FINDER_PLACEHOLDER: string := "###TEXT###"
  const TEXT_FINDER_PREFIX: string := "//text()[contains(., '"
  const TEXT_FINDER_SUFFIX: string := "')]/.."
  const TEXT_FINDER_XPATH: string := TEXT_FINDER_PREFIX + TEXT_FINDER_PLACEHOLDER + TEXT_FINDER_SUFFIX

  /** The locator of the text search: the template with the placeholder
      replaced by the text. */
  function TextFinderXPath(text: string): string {
    ReplaceAll(TEXT_FINDER_XPATH, TEXT_FINDER_PLACEHOLDER, text)
  }

  /** The search locator is the template with the text in place of the
      placeholder, and nothing else changed. */
  lemma TextFinderXPathShape(text: string)
    ensures TextFinderXPath(text) == TEXT_FINDER_PREFIX + text + TEXT_FINDER_SUFFIX
  {
    ReplaceFirstCharAbsent(TEXT_FINDER_PREFIX, TEXT_FINDER_PLACEHOLDER, TEXT_FINDER_SUFFIX, text);
  }

  /** An XPath 1.0 string literal (section 3.7 of XML Path Language 1.0):
      a body between two apostrophes or between two quotation marks. A
      body cannot contain its own delimiter. */
  datatype XPathLiteral = XPathLiteral(delimiter: char, body: string)

  predicate ValidLiteral(l: XPathLiteral) {
    (l.delimiter == '\'' || l.delimiter == '"') && l.delimiter !in l.body
  }

  function RenderLiteral(l: XPathLiteral): string {
    [l.delimiter] + l.body + [l.delimiter]
  }

  /** The body an XPath tokenizer reads for a literal whose opening
      apostrophe precedes `rest`: everything up to the next apostrophe. */
  function LiteralBodyRead(rest: string): string {
    var j := IndexOf(rest, '\'');
    if j == -1 then rest else rest[..j]
  }

  /** `IndexOf` is determined by its contract. */
  lemma IndexOfAt(s: string, c: char, i: nat)
    requires i < |s| && s[i] == c && c !in s[..i]
    ensures IndexOf(s, c) == i
  {
    assert s[i] in s;
    var k := IndexOf(s, c);
    assert forall j :: 0 <= j < i ==> s[..i][j] == s[j];
    assert forall j :: 0 <= j < k ==> s[..k][j] == s[j];
  }

  /** As written: the text the search locator actually looks for. The text
      goes between the template's apostrophes unescaped, so the literal
      ends at the text's first apostrophe and the rest of the text becomes
      XPath syntax. */
  function SearchedText(text: string): (searched: string)
    ensures searched == text <==> '\'' !in text
    ensures '\'' in text ==> searched == text[..IndexOf(text, '\'')]
  {
    TextFinderXPathShape(text);
    var rest := TextFinderXPath(text)[|TEXT_FINDER_PREFIX|..];
    assert rest == text + TEXT_FINDER_SUFFIX;
    var j := IndexOf(text, '\'');
    if j == -1 then
      assert (text + TEXT_FINDER_SUFFIX)[..|text|] == text;
      IndexOfAt(rest, '\'', |text|);
      LiteralBodyRead(rest)
    else
      assert (text + TEXT_FINDER_SUFFIX)[..j] == text[..j];
      IndexOfAt(rest, '\'', j);
      LiteralBodyRead(rest)
  }

  /** The text "Don't" is searched for as "Don"; the remainder `t')]/..`
      leaves the locator malformed. */
  lemma ApostropheTruncatesSearch()
    ensures SearchedText("Don't") == "Don"
    ensures !ValidLiteral(XPathLiteral('\'', "Don't"))
  {
    assert "Don't"[3] == '\'' && "Don't"[..3] == "Don";
    IndexOfAt("Don't", '\'', 3);
  }

  /** An XPath 1.0 string expression: one literal, or `concat` of at least
      two literals. */
  datatype StringExpr = Single(literal: XPathLiteral) | Concat(parts: seq<XPathLiteral>)

  function Bodies(parts: seq<XPathLiteral>): string {
    if |parts| == 0 then "" else parts[0].body + Bodies(parts[1..])
  }

  /** The string an expression evaluates to. */
  function Value(e: StringExpr): string {
    match e
    case Single(l) => l.body
    case Concat(parts) => Bodies(parts)
  }

  predicate ValidExpr(e: StringExpr) {
    match e
    case Single(l) => ValidLiteral(l)
    case Concat(parts) => |parts| >= 2 && forall k :: 0 <= k < |parts| ==> ValidLiteral(parts[k])
  }

  function RenderAll(parts: seq<XPathLiteral>): seq<string> {
    if |parts| == 0 then [] else [RenderLiteral(parts[0])] + RenderAll(parts[1..])
  }

  function RenderExpr(e: StringExpr): string {
    match e
    case Single(l) => RenderLiteral(l)
    case Concat(parts) => "concat(" + Join(", ", RenderAll(parts)) + ")"
  }

  /** The text split at its apostrophes: each stretch between them as an
      apostrophe literal, each apostrophe as a quotation-mark literal. */
  function ApostropheParts(text: string): (parts: seq<XPathLiteral>)
    ensures |parts| >= 1
    ensures forall k :: 0 <= k < |parts| ==> ValidLiteral(parts[k])
    ensures '\'' in text ==> |parts| >= 3
    decreases |text|
  {
    var j := IndexOf(text, '\'');
    if j == -1 then [XPathLiteral('\'', text)]
    else [XPathLiteral('\'', text[..j]), XPathLiteral('"', "'")] + ApostropheParts(text[j + 1..])
  }

  lemma BodiesPair(a: XPathLiteral, b: XPathLiteral, tail: seq<XPathLiteral>)
    ensures Bodies([a, b] + tail) == a.body + b.body + Bodies(tail)
  {
    assert ([a, b] + tail)[1..] == [b] + tail;
    assert ([b] + tail)[1..] == tail;
  }

  lemma Rejoin(s: string, j: nat)
    requires j < |s| && s[j] == '\''
    ensures s[..j] + "'" + s[j + 1..] == s
  {
    assert "'" == [s[j]];
    assert s[..j] + [s[j]] + s[j + 1..] == s;
  }

  /** The parts evaluate back to the text. */
  lemma {:induction false} ApostrophePartsValue(text: string)
    ensures Bodies(ApostropheParts(text)) == text
    decreases |text|
  {
    var j := IndexOf(text, '\'');
    if j != -1 {
      var rest := text[j + 1..];
      var tail := ApostropheParts(rest);
      assert ApostropheParts(text) == [XPathLiteral('\'', text[..j]), XPathLiteral('"', "'")] + tail;
      BodiesPair(XPathLiteral('\'', text[..j]), XPathLiteral('"', "'"), tail);
      ApostrophePartsValue(rest);
      assert Bodies(tail) == rest;
      Rejoin(text, j);
    }
  }

  /** Corrected: the text as an XPath string expression whose value is the
      text. A text without apostrophes keeps the template's apostrophe
      literal; one with apostrophes but no quotation marks uses a
      quotation-mark literal; one with both becomes `concat` of
      `ApostropheParts`. */
  function TextArgument(text: string): (e: StringExpr)
    ensures ValidExpr(e) && Value(e) == text
    ensures '\'' !in text ==> e == Single(XPathLiteral('\'', text))
  {
    if '\'' !in text then Single(XPathLiteral('\'', text))
    else if '"' !in text then Single(XPathLiteral('"', text))
    else
      ApostrophePartsValue(text);
      Concat(ApostropheParts(text))
  }

  /** Corrected: the search locator with the text quoted by `TextArgument`. */
  function CorrectedTextFinderXPath(text: string): string {
    "//text()[contains(., " + RenderExpr(TextArgument(text)) + ")]/.."
  }

  /** With an apostrophe literal, the corrected locator is the template. */
  lemma CorrectedTemplate(text: string)
    ensures "//text()[contains(., " + RenderLiteral(XPathLiteral('\'', text)) + ")]/.."
            == TEXT_FINDER_PREFIX + text + TEXT_FINDER_SUFFIX
  {
    assert "//text()[contains(., " + ['\''] == TEXT_FINDER_PREFIX;
    assert ['\''] + ")]/.." == TEXT_FINDER_SUFFIX;
  }

  /** The source's locator searches for the intended text exactly when the
      text has no apostrophe, and then it is the corrected locator. */
  lemma SearchedTextIntendedIff(text: string)
    ensures SearchedText(text) == Value(TextArgument(text)) <==> '\'' !in text
    ensures '\'' !in text ==> CorrectedTextFinderXPath(text) == TextFinderXPath(text)
  {
    if '\'' !in text {
      TextFinderXPathShape(text);
      CorrectedTemplate(text);
    }
  }

  /** A parent element of a text node, with its displayed state. */
  datatype TextNode = TextNode(text: string, displayed: bool)

  /** A document or frame: its text nodes, then its `iframe` and `frame`
      children in document order. */
  datatype Document = Document(textNodes: seq<TextNode>, iframes: seq<Document>, frames: seq<Document>)

  /** The text element is present in the current frame: some text node
      contains the text and, for the displayed variant, is displayed. The
      text is matched as given, as the corrected locator `TextArgument`
      quotes it. */
  predicate FoundHere(d: Document, isDisplayed: bool, text: string) {
    exists k :: 0 <= k < |d.textNodes| && Contains(d.textNodes[k].text, text)
                && (!isDisplayed || d.textNodes[k].displayed)
  }

  /** A step of frame switching. */
  datatype Step = IFrame(index: nat) | Frame(index: nat)

  /** `pIsTextPresentRecursive`: the frame path of the first hit, or None.
      The current frame first, then each iframe, then each frame, each
      searched recursively; the search stops at the first hit. */
  function Search(d: Document, isDisplayed: bool, text: string): Option<seq<Step>>
    decreases d, 1, 0, 0
  {
    if FoundHere(d, isDisplayed, text) then Some([])
    else SearchChildren(d, true, 0, isDisplayed, text)
  }

  function SearchChildren(d: Document, inIFrames: bool, i: nat, isDisplayed: bool, text: string): Option<seq<Step>>
    decreases d, 0, if inIFrames then 1 else 0, (if inIFrames then |d.iframes| else |d.frames|) - i
  {
    var children := if inIFrames then d.iframes else d.frames;
    if i >= |children| then
      if inIFrames then SearchChildren(d, false, 0, isDisplayed, text) else None
    else
      match Search(children[i], isDisplayed, text)
      case Some(path) => Some([if inIFrames then IFrame(i) else Frame(i)] + path)
      case None => SearchChildren(d, inIFrames, i + 1, isDisplayed, text)
  }

  /** `isTextPresent` / `isTextDisplayed`. */
  predicate IsTextPresent(d: Document, isDisplayed: bool, text: string) {
    Search(d, isDisplayed, text).Some?
  }

  /** Reference definition: the text is in the document or anywhere below
      it. */
  predicate TextSomewhere(d: Document, isDisplayed: bool, text: string)
    decreases d
  {
    FoundHere(d, isDisplayed, text)
    || (exists i :: 0 <= i < |d.iframes| && TextSomewhere(d.iframes[i], isDisplayed, text))
    || (exists i :: 0 <= i < |d.frames| && TextSomewhere(d.frames[i], isDisplayed, text))
  }

  /** The sub-document a frame path leads to. */
  function At(d: Document, path: seq<Step>): Option<Document>
    decreases |path|
  {
    if |path| == 0 then Some(d)
    else
      var children := if path[0].IFrame? then d.iframes else d.frames;
      if path[0].index < |children| then At(children[path[0].index], path[1..]) else None
  }

  /** The recursive search finds the text iff it is somewhere in the frame
      tree, and the path it returns leads to a frame where it is present. */
  lemma {:induction false} SearchCorrect(d: Document, isDisplayed: bool, text: string)
    ensures Search(d, isDisplayed, text).Some? <==> TextSomewhere(d, isDisplayed, text)
    ensures Search(d, isDisplayed, text).Some? ==>
              var sub := At(d, Search(d, isDisplayed, text).value);
              sub.Some? && FoundHere(sub.value, isDisplayed, text)
    decreases d, 1, 0, 0
  {
    if !FoundHere(d, isDisplayed, text) {
      assert Search(d, isDisplayed, text) == SearchChildren(d, true, 0, isDisplayed, text);
      SearchChildrenCorrect(d, true, 0, isDisplayed, text);
      SearchChildrenCorrect(d, false, 0, isDisplayed, text);
      assert TextSomewhere(d, isDisplayed, text) <==>
             (exists i :: 0 <= i < |d.iframes| && TextSomewhere(d.iframes[i], isDisplayed, text))
             || (exists i :: 0 <= i < |d.frames| && TextSomewhere(d.frames[i], isDisplayed, text));
    }
  }

  lemma {:induction false} SearchChildrenCorrect(d: Document, inIFrames: bool, i: nat, isDisplayed: bool, text: string)
    ensures var children := if inIFrames then d.iframes else d.frames;
            var later := exists j :: i <= j < |children| && TextSomewhere(children[j], isDisplayed, text);
            var framesAfter := inIFrames && exists j :: 0 <= j < |d.frames| && TextSomewhere(d.frames[j], isDisplayed, text);
            SearchChildren(d, inIFrames, i, isDisplayed, text).Some? <==> later || framesAfter
    ensures SearchChildren(d, inIFrames, i, isDisplayed, text).Some? ==>
              var sub := At(d, SearchChildren(d, inIFrames, i, isDisplayed, text).value);
              sub.Some? && FoundHere(sub.value, isDisplayed, text)
    decreases d, 0, if inIFrames then 1 else 0, (if inIFrames then |d.iframes| else |d.frames|) - i
  {
    var children := if inIFrames then d.iframes else d.frames;
    if i >= |children| {
      if inIFrames {
        SearchChildrenCorrect(d, false, 0, isDisplayed, text);
      }
    } else {
      SearchCorrect(children[i], isDisplayed, text);
      SearchChildrenCorrect(d, inIFrames, i + 1, isDisplayed, text);
      match Search(children[i], isDisplayed, text)
      case Some(path) =>
        var step := if inIFrames then IFrame(i) else Frame(i);
        assert ([step] + path)[1..] == path;
      case None =>
    }
  }

  /** Iframes are searched before frames: a hit inside a frame is only
      reported when neither the document itself nor any iframe subtree
      contains the text. */
  lemma {:induction false} IFramesBeforeFrames(d: Document, isDisplayed: bool, text: string)
    ensures var r := Search(d, isDisplayed, text);
            r.Some? && |r.value| > 0 && r.value[0].Frame? ==>
              !FoundHere(d, isDisplayed, text)
              && forall i :: 0 <= i < |d.iframes| ==> !TextSomewhere(d.iframes[i], isDisplayed, text)
  {
    if !FoundHere(d, isDisplayed, text) {
      IFramesFirst(d, 0, isDisplayed, text);
    }
  }

  lemma {:induction false} IFramesFirst(d: Document, i: nat, isDisplayed: bool, text: string)
    ensures var r := SearchChildren(d, true, i, isDisplayed, text);
            r.Some? && |r.value| > 0 && r.value[0].Frame? ==>
              forall j :: i <= j < |d.iframes| ==> !TextSomewhere(d.iframes[j], isDisplayed, text)
    decreases |d.iframes| - i
  {
    if i < |d.iframes| {
      SearchCorrect(d.iframes[i], isDisplayed, text);
      IFramesFirst(d, i + 1, isDisplayed, text);
    } else {
      FramesStepsAreFrames(d, 0, isDisplayed, text);
    }
  }

  lemma {:induction false} FramesStepsAreFrames(d: Document, i: nat, isDisplayed: bool, text: string)
    ensures var r := SearchChildren(d, false, i, isDisplayed, text);
            r.Some? ==> |r.value| > 0 && r.value[0].Frame?
    decreases |d.frames| - i
  {
    if i < |d.frames| {
      FramesStepsAreFrames(d, i + 1, isDisplayed, text);
    }
  }

  // ------------------------------------------------------ waits and asserts

  /** What one run of a wait sequence records. */
  datatype SequenceOutcome = SequenceOutcome(passState: bool, returningObject: bool)

  /** The sequence body of `waitForIsTextPresent`/`waitForIsTextDisplayed`
      (`negate` false) and of the `waitForIsNot…` variants (`negate` true),
      for one observation of the text. */
  function WaitSequence(observed: bool, negate: bool): (o: SequenceOutcome)
    ensures o.passState == o.returningObject
    ensures negate ==> o.passState == !observed
    ensures !negate ==> o.passState == observed
  {
    var passState := if negate then !observed else observed;
    SequenceOutcome(passState, passState)
  }

  /** For the same observation the negated wait passes exactly when the
      positive one does not. */
  lemma NegatedWaitIsComplement(observed: bool)
    ensures WaitSequence(observed, true).passState == !WaitSequence(observed, false).passState
    ensures WaitSequence(WaitSequence(observed, true).passState, true) == WaitSequence(observed, false)
  {
  }

  /** How an assert obtains its observation. */
  datatype Observation = SingleCheck | WaitingCheck

  /** `assertIsText…` / `assertIsNotText…`: the kind of observation, the
      value the assertion expects, and the failure message. */
  datatype TextAssertion = TextAssertion(observation: Observation, expected: bool, message: string)

  function AssertText(negated: bool, displayed: bool, text: string, description: string): (a: TextAssertion)
    ensures a.observation == WaitingCheck <==> !negated
    ensures a.expected == !negated
    ensures StartsWith(a.message, "Text '" + text + "' is ")
    ensures a.message == "Text '" + text + "' is " + (if displayed then "displayed" else "present") + " on current page"
                         + (if negated then "" else ". " + description)
  {
    var state := if displayed then "displayed" else "present";
    if negated then TextAssertion(SingleCheck, false, "Text '" + text + "' is " + state + " on current page")
    else TextAssertion(WaitingCheck, true, "Text '" + text + "' is " + state + " on current page. " + description)
  }

  /** An assertion passes iff the observed value is the expected one: the
      positive assert on the waited-for value, the negative assert on a
      single check. */
  predicate AssertPasses(a: TextAssertion, singleCheck: bool, waited: bool) {
    (if a.observation == SingleCheck then singleCheck else waited) == a.expected
  }

  lemma AssertTextPasses(negated: bool, displayed: bool, text: string, description: string, singleCheck: bool, waited: bool)
    ensures AssertPasses(AssertText(negated, displayed, text, description), singleCheck, waited)
            <==> (if negated then !singleCheck else waited)
  {
  }
}
