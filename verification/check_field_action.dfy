/** `CheckFieldAction`: the readable "mandatory element" message, the
    `before` decision on a page field, and the outcome of `execute`. */
module CheckFieldAction {
  import opened Wrappers
  import opened Strings

  const FIELD_PLACEHOLDER: string := "###"
  const CLASS_PLACEHOLDER: string := "***"
  const NOT_FOUND_TAIL: string := "< was not found"
  const FOUND_TAIL: string := "< was found, but expected to be NOT"
  const TEMPLATE_HEAD: string := ": Mandatory GuiElement >"

  /** The two templates: `***` is the page's simple class name, `###` the
      field name. */
  function Template(findNot: bool): string {
    CLASS_PLACEHOLDER + TEMPLATE_HEAD + FIELD_PLACEHOLDER + (if findNot then FOUND_TAIL else NOT_FOUND_TAIL)
  }

  /** The constructor's `readableMessage`: the field name replaces `###`
      first, then the class name replaces `***`. */
  function ReadableMessage(findNot: bool, fieldName: string, simpleClassName: string): string {
    ReplaceAll(ReplaceAll(Template(findNot), FIELD_PLACEHOLDER, fieldName), CLASS_PLACEHOLDER, simpleClassName)
  }

  /** A Java identifier has no '#' and no '*'. */
  predicate IsJavaIdentifier(s: string) {
    |s| > 0 && forall i :: 0 <= i < |s| ==> s[i] != '#' && s[i] != '*'
  }

  /** For Java identifiers the message names the page class and the field,
      and the tail says which of the two templates was chosen. */
  lemma ReadableMessageShape(findNot: bool, fieldName: string, simpleClassName: string)
    requires IsJavaIdentifier(fieldName)
    ensures ReadableMessage(findNot, fieldName, simpleClassName)
            == simpleClassName + TEMPLATE_HEAD + fieldName + (if findNot then FOUND_TAIL else NOT_FOUND_TAIL)
  {
    var tail := if findNot then FOUND_TAIL else NOT_FOUND_TAIL;
    TailsHaveNoPlaceholder(findNot);
    TemplateReplaced(Template(findNot), tail, fieldName, simpleClassName);
  }

  /** Both replacements on a template with the given tail. */
  lemma TemplateReplaced(template: string, tail: string, fieldName: string, simpleClassName: string)
    requires IsJavaIdentifier(fieldName) && '#' !in tail && '*' !in tail
    requires template == CLASS_PLACEHOLDER + TEMPLATE_HEAD + FIELD_PLACEHOLDER + tail
    ensures ReplaceAll(ReplaceAll(template, FIELD_PLACEHOLDER, fieldName), CLASS_PLACEHOLDER, simpleClassName)
            == simpleClassName + TEMPLATE_HEAD + fieldName + tail
  {
    var head := CLASS_PLACEHOLDER + TEMPLATE_HEAD;
    assert template == head + FIELD_PLACEHOLDER + tail;
    FieldReplaced(head, tail, fieldName);
    var rest := TEMPLATE_HEAD + fieldName + tail;
    Regroup(CLASS_PLACEHOLDER, TEMPLATE_HEAD, fieldName, tail);
    NoStarInRest(fieldName, tail);
    ClassReplaced(rest, simpleClassName);
    Regroup(simpleClassName, TEMPLATE_HEAD, fieldName, tail);
  }

  lemma Regroup(a: string, b: string, c: string, d: string)
    ensures a + b + c + d == a + (b + c + d)
  {
  }

  lemma TailsHaveNoPlaceholder(findNot: bool)
    ensures var tail := if findNot then FOUND_TAIL else NOT_FOUND_TAIL;
            '#' !in tail && '*' !in tail
              && Template(findNot) == CLASS_PLACEHOLDER + TEMPLATE_HEAD + FIELD_PLACEHOLDER + tail
  {
  }

  lemma NoStarInRest(fieldName: string, tail: string)
    requires IsJavaIdentifier(fieldName) && '*' !in tail
    ensures '*' !in TEMPLATE_HEAD + fieldName + tail
  {
    assert '*' !in TEMPLATE_HEAD;
    assert '*' !in fieldName by {
      forall i | 0 <= i < |fieldName| ensures fieldName[i] != '*' {
      }
    }
  }

  /** The first replacement: only the `###` of the template matches. */
  lemma FieldReplaced(head: string, tail: string, fieldName: string)
    requires head == CLASS_PLACEHOLDER + TEMPLATE_HEAD && '#' !in tail
    ensures ReplaceAll(head + FIELD_PLACEHOLDER + tail, FIELD_PLACEHOLDER, fieldName) == head + fieldName + tail
  {
    HeadHasNoHash();
    ReplaceFirstCharAbsent(head, FIELD_PLACEHOLDER, tail, fieldName);
  }

  lemma HeadHasNoHash()
    ensures '#' !in CLASS_PLACEHOLDER + TEMPLATE_HEAD
  {
    assert CLASS_PLACEHOLDER + TEMPLATE_HEAD == "***: Mandatory GuiElement >";
  }

  /** The second replacement: only the leading `***` matches. */
  lemma ClassReplaced(rest: string, simpleClassName: string)
    requires '*' !in rest
    ensures ReplaceAll(CLASS_PLACEHOLDER + rest, CLASS_PLACEHOLDER, simpleClassName) == simpleClassName + rest
  {
    assert CLASS_PLACEHOLDER + rest == [] + CLASS_PLACEHOLDER + rest;
    ReplaceFirstCharAbsent([], CLASS_PLACEHOLDER, rest, simpleClassName);
    assert [] + simpleClassName + rest == simpleClassName + rest;
  }

  /** The two messages differ for every field and page. */
  lemma MessagesDistinguishFindNot(fieldName: string, simpleClassName: string)
    requires IsJavaIdentifier(fieldName)
    ensures ReadableMessage(true, fieldName, simpleClassName) != ReadableMessage(false, fieldName, simpleClassName)
  {
    ReadableMessageShape(true, fieldName, simpleClassName);
    ReadableMessageShape(false, fieldName, simpleClassName);
    var prefix := simpleClassName + TEMPLATE_HEAD + fieldName;
    assert (prefix + FOUND_TAIL)[|prefix| + 6] != (prefix + NOT_FOUND_TAIL)[|prefix| + 6];
  }

  // ------------------------------------------------------------------ before

  /** What reflection reports about a page field. */
  datatype FieldInfo = FieldInfo(
    fieldName: string,
    declaringClassCanonicalName: string,
    isCheckAnnotated: bool,
    isCheckable: bool,
    isStatic: bool)

  const NOT_CHECKABLE_TAIL: string :=
    " is annotated with @Check, but the class is not checkable. A class is checkable, if it "
    + "implements the marker interface eu.tsystems.mms.tic.testframework.pageobjects.internal.Checkable"
  const STATIC_HEAD: string := "Checkable field MUST be non-static: "

  function NotCheckableMessage(f: FieldInfo): string {
    "Field " + f.fieldName + " in " + f.declaringClassCanonicalName + NOT_CHECKABLE_TAIL
  }

  function StaticMessage(f: FieldInfo): string {
    STATIC_HEAD + f.declaringClassCanonicalName + "." + f.fieldName
  }

  /** `before()`: the decision whether to execute the check, or the
      `RuntimeException` it throws. */
  function Before(f: FieldInfo): (r: Result<bool, string>)
    ensures r == Ok(true) <==> f.isCheckAnnotated && f.isCheckable && !f.isStatic
    ensures r.Err? <==> (f.isCheckAnnotated && !f.isCheckable) || (f.isCheckable && f.isStatic)
    ensures f.isCheckable && f.isStatic ==> r == Err(StaticMessage(f))
    ensures f.isCheckAnnotated && !f.isCheckable ==> r == Err(NotCheckableMessage(f))
  {
    if f.isCheckAnnotated && !f.isCheckable then Err(NotCheckableMessage(f))
    else if f.isCheckable && f.isStatic then Err(StaticMessage(f))
    else Ok(f.isCheckable && f.isCheckAnnotated)
  }

  /** A static checkable field is refused whether or not it carries
      `@Check`, and a field that is neither annotated nor checkable is
      simply skipped. */
  lemma StaticCheckableAlwaysThrows(f: FieldInfo)
    ensures f.isCheckable && f.isStatic ==>
              Before(f) == Before(f.(isCheckAnnotated := !f.isCheckAnnotated)) && Before(f).Err?
    ensures !f.isCheckAnnotated && !f.isCheckable ==> Before(f) == Ok(false)
  {
  }

  // ----------------------------------------------------------------- execute

  /** `field.get(declaringPage)`: the value (None for `null`), or one of the
      two reflection errors. */
  datatype FieldRead = Value(checkable: Option<string>) | IllegalAccess | IllegalArgument

  /** The outcome of `execute()`: it logs and returns, throws, or runs the
      check (whose own throwable is rethrown unchanged). */
  datatype ExecuteOutcome = LoggedAndReturned(log: string) | Threw(message: string) | Checked

  const INTERNAL_ERROR: string := "Internal Error"
  const INTERNAL_ERROR_ARGUMENT: string := "Internal Error. Maybe tried to get field from object that does not declare it."

  const NEVER_INITIALIZED_TAIL: string :=
    " is annotated with @Check and was never initialized (it is null). This is not allowed"
    + " because @Check indicates a mandatory GuiElement of a Page."

  function NeverInitializedMessage(f: FieldInfo): string {
    "Field " + f.fieldName + " in " + f.declaringClassCanonicalName + NEVER_INITIALIZED_TAIL
  }

  /** `execute()`, with the result of `checkField` given as the throwable
      it raises, if any. */
  function Execute(f: FieldInfo, read: FieldRead, checkFieldThrows: Option<string>): (r: ExecuteOutcome)
    ensures read.IllegalAccess? || read.IllegalArgument? <==> r.LoggedAndReturned?
    ensures read == Value(None) ==> r == Threw(NeverInitializedMessage(f))
    ensures r.Checked? <==> read.Value? && read.checkable.Some? && checkFieldThrows.None?
    ensures read.Value? && read.checkable.Some? && checkFieldThrows.Some? ==> r == Threw(checkFieldThrows.value)
  {
    match read
    case IllegalAccess => LoggedAndReturned(INTERNAL_ERROR)
    case IllegalArgument => LoggedAndReturned(INTERNAL_ERROR_ARGUMENT)
    case Value(None) => Threw(NeverInitializedMessage(f))
    case Value(Some(_)) =>
      match checkFieldThrows
      case Some(t) => Threw(t)
      case None => Checked
  }
}
