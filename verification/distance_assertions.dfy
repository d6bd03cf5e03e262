/** Selenium's `Rectangle`: an element's bounds as four Java `int`s. */
module ElementBounds {
  import opened Wrappers
  import opened JavaInt

  datatype Rectangle = Rectangle(x: int, y: int, width: int, height: int) {
    predicate Valid() {
      IsInt32(x) && IsInt32(y) && IsInt32(width) && IsInt32(height)
    }
  }

  /** Subtracting two wrapped values wraps their exact difference. */
  lemma SubtractWrapped(a: int, b: int)
    ensures Wrap32(Wrap32(a) - Wrap32(b)) == Wrap32(a - b)
  {
    Wrap32Sub(Wrap32(a), b);
    Wrap32Add(a, -b);
  }

  /** Two wrapped values whose exact difference is an `int` differ by it
      after wrapping. */
  lemma WrappedDifference(a: int, b: int, d: int)
    requires a - b == d && IsInt32(d)
    ensures Wrap32(Wrap32(a) - Wrap32(b)) == d
  {
    SubtractWrapped(a, b);
  }

  /** `String.format("<name>(%s)", element)`: the assertion's subject. */
  function Subject(name: string, element: string): (s: string)
    ensures |s| == |name| + |element| + 2
    ensures s[..|name| + 1] == name + "(" && s[|s| - 1] == ')'
    ensures s[|name| + 1..|s| - 1] == element
  {
    name + "(" + element + ")"
  }

  /** Whether `s` reads as a subject of the function `name`. */
  predicate IsSubjectOf(name: string, s: string) {
    |s| >= |name| + 2 && s[..|name| + 1] == name + "(" && s[|s| - 1] == ')'
  }

  /** The element text inside a subject of the function `name`, or none
      when `s` is not such a subject. */
  function SubjectElement(name: string, s: string): (r: Option<string>)
    ensures r.Some? <==> IsSubjectOf(name, s)
    ensures r.Some? ==> s == Subject(name, r.value)
  {
    if IsSubjectOf(name, s) then
      assert s == s[..|name| + 1] + s[|name| + 1..|s| - 1] + [s[|s| - 1]];
      Some(s[|name| + 1..|s| - 1])
    else None
  }

  /** The subject names its element, and different elements give different
      subjects. */
  lemma SubjectRoundTrip(name: string, element: string, other: string)
    ensures SubjectElement(name, Subject(name, element)) == Some(element)
    ensures Subject(name, element) == Subject(name, other) ==> element == other
  {
    var s := Subject(name, element);
    var t := Subject(name, other);
    if s == t {
      assert element == s[|name| + 1..|s| - 1] == t[|name| + 1..|t| - 1] == other;
    }
  }
}

/** `DefaultHorizontalDistanceAssertion`: the horizontal distance of a value
    (an x coordinate of the asserted element) from a reference element,
    in Java `int` arithmetic. */
module HorizontalDistanceAssertion {
  import opened Wrappers
  import opened JavaInt
  import opened ElementBounds

  /** `toRightOf`: distance from the reference's right edge. */
  function ToRightOf(actual: int, reference: Rectangle): (d: int)
    requires IsInt32(actual) && reference.Valid()
    ensures IsInt32(d)
    ensures IsInt32(reference.x + reference.width) && IsInt32(actual - (reference.x + reference.width))
            ==> d == actual - (reference.x + reference.width)
    ensures d == ToLeftOf(Wrap32(actual - reference.width), reference)
  {
    Wrap32SubSum(actual, reference.x, reference.width);
    Wrap32(actual - Wrap32(reference.x + reference.width))
  }

  /** `toLeftOf`: distance from the reference's left edge. */
  function ToLeftOf(actual: int, reference: Rectangle): (d: int)
    requires IsInt32(actual) && reference.Valid()
    ensures IsInt32(d)
    ensures IsInt32(actual - reference.x) ==> d == actual - reference.x
  {
    Wrap32(actual - reference.x)
  }

  /** Being to the left of the left edge is being to the left of the right
      edge by exactly the reference's width (modulo 2^32). */
  lemma LeftMinusRightIsWidth(actual: int, reference: Rectangle)
    requires IsInt32(actual) && reference.Valid()
    ensures Wrap32(ToLeftOf(actual, reference) - ToRightOf(actual, reference)) == reference.width
  {
    var left := actual - reference.x;
    var right := actual - (reference.x + reference.width);
    assert ToLeftOf(actual, reference) == Wrap32(left);
    assert ToRightOf(actual, reference) == Wrap32(right) by {
      Wrap32Sub(actual, reference.x + reference.width);
    }
    WrappedDifference(left, right, reference.width);
  }

  /** Without overflow the difference is the plain width. */
  lemma LeftMinusRightExact(actual: int, reference: Rectangle)
    requires IsInt32(actual) && reference.Valid()
    requires IsInt32(reference.x + reference.width)
    requires IsInt32(actual - reference.x) && IsInt32(actual - (reference.x + reference.width))
    ensures ToLeftOf(actual, reference) - ToRightOf(actual, reference) == reference.width
  {
  }

  const TO_RIGHT_OF: string := "toRightOf"
  const TO_LEFT_OF: string := "toLeftOf"

  /** The subjects "toRightOf(<element>)" and "toLeftOf(<element>)". */
  function RightSubject(element: string): (s: string)
    ensures s == "toRightOf(" + element + ")"
    ensures SubjectElement(TO_RIGHT_OF, s) == Some(element)
  {
    SubjectRoundTrip(TO_RIGHT_OF, element, element);
    Subject(TO_RIGHT_OF, element)
  }

  function LeftSubject(element: string): (s: string)
    ensures s == "toLeftOf(" + element + ")"
    ensures SubjectElement(TO_LEFT_OF, s) == Some(element)
  {
    SubjectRoundTrip(TO_LEFT_OF, element, element);
    Subject(TO_LEFT_OF, element)
  }
}

/** `DefaultVerticalDistanceAssertion`: the vertical counterpart, relative
    to the reference's top and bottom edges. */
module VerticalDistanceAssertion {
  import opened Wrappers
  import opened JavaInt
  import opened ElementBounds

  /** `toTopOf`: distance from the reference's top edge. */
  function ToTopOf(actual: int, reference: Rectangle): (d: int)
    requires IsInt32(actual) && reference.Valid()
    ensures IsInt32(d)
    ensures IsInt32(actual - reference.y) ==> d == actual - reference.y
  {
    Wrap32(actual - reference.y)
  }

  /** `toBottomOf`: distance from the reference's bottom edge. */
  function ToBottomOf(actual: int, reference: Rectangle): (d: int)
    requires IsInt32(actual) && reference.Valid()
    ensures IsInt32(d)
    ensures IsInt32(reference.y + reference.height) && IsInt32(actual - (reference.y + reference.height))
            ==> d == actual - (reference.y + reference.height)
    ensures d == ToTopOf(Wrap32(actual - reference.height), reference)
  {
    Wrap32SubSum(actual, reference.y, reference.height);
    Wrap32(actual - Wrap32(reference.y + reference.height))
  }

  /** The distance to the top edge exceeds the distance to the bottom edge
      by the reference's height (modulo 2^32). */
  lemma TopMinusBottomIsHeight(actual: int, reference: Rectangle)
    requires IsInt32(actual) && reference.Valid()
    ensures Wrap32(ToTopOf(actual, reference) - ToBottomOf(actual, reference)) == reference.height
  {
    var top := actual - reference.y;
    var bottom := actual - (reference.y + reference.height);
    assert ToTopOf(actual, reference) == Wrap32(top);
    assert ToBottomOf(actual, reference) == Wrap32(bottom) by {
      Wrap32Sub(actual, reference.y + reference.height);
    }
    WrappedDifference(top, bottom, reference.height);
  }

  /** Without overflow the difference is the plain height. */
  lemma TopMinusBottomExact(actual: int, reference: Rectangle)
    requires IsInt32(actual) && reference.Valid()
    requires IsInt32(reference.y + reference.height)
    requires IsInt32(actual - reference.y) && IsInt32(actual - (reference.y + reference.height))
    ensures ToTopOf(actual, reference) - ToBottomOf(actual, reference) == reference.height
  {
  }

  const TO_TOP_OF: string := "toTopOf"
  const TO_BOTTOM_OF: string := "toBottomOf"

  /** The subjects "toTopOf(guiElement: <element>)" and
      "toBottomOf(guiElement: <element>)". */
  function TopSubject(element: string): (s: string)
    ensures s == "toTopOf(" + "guiElement: " + element + ")"
    ensures SubjectElement(TO_TOP_OF, s) == Some("guiElement: " + element)
  {
    SubjectRoundTrip(TO_TOP_OF, "guiElement: " + element, "guiElement: " + element);
    Subject(TO_TOP_OF, "guiElement: " + element)
  }

  function BottomSubject(element: string): (s: string)
    ensures s == "toBottomOf(" + "guiElement: " + element + ")"
    ensures SubjectElement(TO_BOTTOM_OF, s) == Some("guiElement: " + element)
  {
    SubjectRoundTrip(TO_BOTTOM_OF, "guiElement: " + element, "guiElement: " + element);
    Subject(TO_BOTTOM_OF, "guiElement: " + element)
  }
}
