/** The report UI's `statistics-generator.ts`: the computed fields of
    `MethodDetails`, the grouping of method contexts into class statistics,
    the method lookup, and the screenshot ids of a method context. */
module StatisticsGenerator {
  import opened Wrappers
  import opened Strings

  // ----------------------------------------------------------- MethodDetails

  /** One entry of `methodContext.parameters`, in the object's key order. */
  datatype Parameter = Parameter(name: string, value: string)

  function ParameterText(p: Parameter): string {
    p.name + ": " + p.value
  }

  function ParameterTexts(parameters: seq<Parameter>): (r: seq<string>)
    ensures |r| == |parameters|
    ensures forall k :: 0 <= k < |parameters| ==> r[k] == ParameterText(parameters[k])
  {
    seq(|parameters|, k requires 0 <= k < |parameters| => ParameterText(parameters[k]))
  }

  /** The `identifier` getter. */
  function Identifier(name: string, parameters: seq<Parameter>): (identifier: string)
    ensures |parameters| == 0 ==> identifier == name
  {
    if |ParameterTexts(parameters)| > 0 then name + "(" + Join(", ", ParameterTexts(parameters)) + ")" else name
  }

  /** The identifier can be taken apart again: it starts with the name and,
      when there are parameters, the parenthesised rest is exactly the
      joined parameter list. */
  lemma IdentifierParts(name: string, parameters: seq<Parameter>)
    requires |parameters| > 0
    ensures var id := Identifier(name, parameters);
            |id| >= |name| + 2
            && id[..|name|] == name
            && id[|name|] == '('
            && id[|id| - 1] == ')'
            && id[|name| + 1..|id| - 1] == Join(", ", ParameterTexts(parameters))
  {
    var joined := Join(", ", ParameterTexts(parameters));
    var id := name + "(" + joined + ")";
    assert id[..|name|] == name;
    assert id[|name| + 1..|id| - 1] == joined;
  }

  /** Methods with the same name are told apart by their parameters: two
      different single-valued parameter lists give different identifiers. */
  lemma IdentifierSeparatesValues(name: string, param: string, a: string, b: string)
    requires a != b
    ensures Identifier(name, [Parameter(param, a)]) != Identifier(name, [Parameter(param, b)])
  {
    IdentifierParts(name, [Parameter(param, a)]);
    IdentifierParts(name, [Parameter(param, b)]);
    var prefix := param + ": ";
    assert Join(", ", ParameterTexts([Parameter(param, a)])) == prefix + a;
    assert Join(", ", ParameterTexts([Parameter(param, b)])) == prefix + b;
    assert (prefix + a)[|prefix|..] == a && (prefix + b)[|prefix|..] == b;
  }

  /** The `numDetails` getter: one for a present error context and one for
      a present custom-context object (JavaScript truthiness: an empty
      object still counts). */
  function NumDetails(hasErrorContext: bool, hasCustomContexts: bool): (n: int)
    ensures 0 <= n <= 2
    ensures n == 0 <==> !hasErrorContext && !hasCustomContexts
    ensures n == 2 <==> hasErrorContext && hasCustomContexts
  {
    (if hasErrorContext then 1 else 0) + (if hasCustomContexts then 1 else 0)
  }

  /** What `failedStep` evaluates to: `null`, `undefined` for an index past
      the end, or the step. */
  datatype StepLookup<T> = Null | Undefined | Step(step: T)

  /** The `failedStep` getter. */
  function FailedStep<T>(failedStepIndex: int, testSteps: seq<T>): (r: StepLookup<T>)
    ensures r.Null? <==> failedStepIndex < 0
    ensures r.Undefined? <==> failedStepIndex >= |testSteps|
    ensures r.Step? ==> 0 <= failedStepIndex < |testSteps| && r.step == testSteps[failedStepIndex]
  {
    if failedStepIndex < 0 then Null
    else if failedStepIndex < |testSteps| then Step(testSteps[failedStepIndex])
    else Undefined
  }

  // --------------------------------------------------------- screenshot ids

  /** A log entry of a test step action; `screenshotId` is unset or a
      string, and only a non-empty string is truthy. */
  datatype Entry = Entry(screenshotId: Option<string>)
  datatype Action = Action(entries: seq<Entry>)
  datatype TestStep = TestStep(actions: seq<Action>)

  predicate HasScreenshot(e: Entry) {
    e.screenshotId.Some? && |e.screenshotId.value| > 0
  }

  function ActionEntries(actions: seq<Action>): seq<Entry> {
    if |actions| == 0 then [] else actions[0].entries + ActionEntries(actions[1..])
  }

  /** `testSteps.flatMap(actions).flatMap(entries)`. */
  function StepEntries(steps: seq<TestStep>): seq<Entry> {
    if |steps| == 0 then [] else ActionEntries(steps[0].actions) + StepEntries(steps[1..])
  }

  /** `.filter(screenshotId).map(screenshotId)` over a list of entries. */
  function ScreenshotIdsOf(entries: seq<Entry>): (ids: seq<string>)
    ensures |ids| <= |entries|
    ensures forall id :: id in ids <==> exists e :: e in entries && HasScreenshot(e) && e.screenshotId.value == id
  {
    if |entries| == 0 then []
    else
      var rest := ScreenshotIdsOf(entries[1..]);
      assert forall e :: e in entries <==> e == entries[0] || e in entries[1..];
      if HasScreenshot(entries[0]) then [entries[0].screenshotId.value] + rest else rest
  }

  /** `getScreenshotIdsFromMethodContext`. */
  function ScreenshotIds(steps: seq<TestStep>): (ids: seq<string>)
    ensures forall id :: id in ids ==> |id| > 0
  {
    ScreenshotIdsOf(StepEntries(steps))
  }

  /** An entry sits in a step's action. */
  predicate EntryOfStep(steps: seq<TestStep>, e: Entry) {
    exists s, a :: s in steps && a in s.actions && e in a.entries
  }

  lemma {:induction false} ActionEntriesMembers(actions: seq<Action>, e: Entry)
    ensures e in ActionEntries(actions) <==> exists a :: a in actions && e in a.entries
  {
    if |actions| > 0 {
      ActionEntriesMembers(actions[1..], e);
      assert forall a :: a in actions <==> a == actions[0] || a in actions[1..];
    }
  }

  lemma {:induction false} StepEntriesMembers(steps: seq<TestStep>, e: Entry)
    ensures e in StepEntries(steps) <==> EntryOfStep(steps, e)
  {
    if |steps| > 0 {
      StepEntriesMembers(steps[1..], e);
      ActionEntriesMembers(steps[0].actions, e);
      assert forall s :: s in steps <==> s == steps[0] || s in steps[1..];
      if e in ActionEntries(steps[0].actions) {
        var a :| a in steps[0].actions && e in a.entries;
        assert steps[0] in steps;
      }
      if EntryOfStep(steps[1..], e) {
        var s, a :| s in steps[1..] && a in s.actions && e in a.entries;
        assert s in steps;
      }
    }
  }

  /** An id is listed iff some entry of some action of some step carries it
      as a non-empty screenshot id. */
  lemma ScreenshotIdsMembers(steps: seq<TestStep>, id: string)
    ensures id in ScreenshotIds(steps)
            <==> exists e :: EntryOfStep(steps, e) && HasScreenshot(e) && e.screenshotId.value == id
  {
    forall e ensures e in StepEntries(steps) <==> EntryOfStep(steps, e) {
      StepEntriesMembers(steps, e);
    }
  }

  /** Flattening keeps the order of the steps: the ids of two step lists
      are the ids of the first followed by those of the second. */
  lemma {:induction false} ScreenshotIdsAppend(first: seq<TestStep>, second: seq<TestStep>)
    ensures ScreenshotIds(first + second) == ScreenshotIds(first) + ScreenshotIds(second)
  {
    StepEntriesAppend(first, second);
    ScreenshotIdsOfAppend(StepEntries(first), StepEntries(second));
  }

  lemma {:induction false} StepEntriesAppend(first: seq<TestStep>, second: seq<TestStep>)
    ensures StepEntries(first + second) == StepEntries(first) + StepEntries(second)
  {
    if |first| > 0 {
      assert (first + second)[1..] == first[1..] + second;
      StepEntriesAppend(first[1..], second);
    } else {
      assert first + second == second;
    }
  }

  lemma {:induction false} ScreenshotIdsOfAppend(first: seq<Entry>, second: seq<Entry>)
    ensures ScreenshotIdsOf(first + second) == ScreenshotIdsOf(first) + ScreenshotIdsOf(second)
  {
    if |first| > 0 {
      assert (first + second)[1..] == first[1..] + second;
      ScreenshotIdsOfAppend(first[1..], second);
    } else {
      assert first + second == second;
    }
  }

  // ------------------------------------------------------ class statistics

  /** A method context with the identifier of the class statistics it
      belongs to (`ClassStatistics.setClassContext` of its class context). */
  datatype MethodContext = MethodContext(id: string, classIdentifier: string)

  datatype ClassStatistics = ClassStatistics(classIdentifier: string, methodContexts: seq<MethodContext>)

  /** `classStatistics.find(...)`: the first statistics with the identifier,
      or -1. */
  function FindClass(stats: seq<ClassStatistics>, classIdentifier: string): (i: int)
    ensures -1 <= i < |stats|
    ensures i == -1 <==> forall k :: 0 <= k < |stats| ==> stats[k].classIdentifier != classIdentifier
    ensures i >= 0 ==> stats[i].classIdentifier == classIdentifier
                       && forall k :: 0 <= k < i ==> stats[k].classIdentifier != classIdentifier
  {
    if |stats| == 0 then -1
    else if stats[|stats| - 1].classIdentifier == classIdentifier && FindClass(stats[..|stats| - 1], classIdentifier) == -1
    then |stats| - 1
    else FindClass(stats[..|stats| - 1], classIdentifier)
  }

  /** One iteration of the loop in `getExecutionStatistics`. */
  function AddMethod(stats: seq<ClassStatistics>, m: MethodContext): (r: seq<ClassStatistics>)
    ensures |stats| <= |r| <= |stats| + 1
  {
    var i := FindClass(stats, m.classIdentifier);
    if i == -1 then stats + [ClassStatistics(m.classIdentifier, [m])]
    else stats[i := stats[i].(methodContexts := stats[i].methodContexts + [m])]
  }

  /** The class statistics after all method contexts, in iteration order. */
  function GroupByClass(methods: seq<MethodContext>): seq<ClassStatistics> {
    if |methods| == 0 then []
    else AddMethod(GroupByClass(methods[..|methods| - 1]), methods[|methods| - 1])
  }

  /** The reference: the method contexts of one class, in iteration order. */
  function MethodsOfClass(methods: seq<MethodContext>, classIdentifier: string): seq<MethodContext> {
    if |methods| == 0 then []
    else
      MethodsOfClass(methods[..|methods| - 1], classIdentifier)
      + (if methods[|methods| - 1].classIdentifier == classIdentifier then [methods[|methods| - 1]] else [])
  }

  predicate UniqueClasses(stats: seq<ClassStatistics>) {
    forall k, l :: 0 <= k < l < |stats| ==> stats[k].classIdentifier != stats[l].classIdentifier
  }

  /** What the grouping keeps: identifiers are unique, each statistics
      holds exactly the methods of its class in order, and every method's
      class has a statistics. */
  predicate Grouped(stats: seq<ClassStatistics>, methods: seq<MethodContext>) {
    && UniqueClasses(stats)
    && (forall k :: 0 <= k < |stats| ==> stats[k].methodContexts == MethodsOfClass(methods, stats[k].classIdentifier))
    && (forall i :: 0 <= i < |methods| ==> FindClass(stats, methods[i].classIdentifier) >= 0)
  }

  lemma {:induction false} MethodsOfAbsentClass(methods: seq<MethodContext>, classIdentifier: string)
    requires forall i :: 0 <= i < |methods| ==> methods[i].classIdentifier != classIdentifier
    ensures MethodsOfClass(methods, classIdentifier) == []
  {
    if |methods| > 0 {
      MethodsOfAbsentClass(methods[..|methods| - 1], classIdentifier);
    }
  }

  /** A class without statistics has no method among the grouped ones. */
  lemma AbsentClassHasNoMethods(stats: seq<ClassStatistics>, methods: seq<MethodContext>, classIdentifier: string)
    requires Grouped(stats, methods) && FindClass(stats, classIdentifier) == -1
    ensures forall j :: 0 <= j < |methods| ==> methods[j].classIdentifier != classIdentifier
    ensures MethodsOfClass(methods, classIdentifier) == []
  {
    forall j | 0 <= j < |methods| ensures methods[j].classIdentifier != classIdentifier {
      var k := FindClass(stats, methods[j].classIdentifier);
      assert stats[k].classIdentifier == methods[j].classIdentifier;
    }
    MethodsOfAbsentClass(methods, classIdentifier);
  }

  /** Class statistics are unique by identifier and every method context is
      in exactly the statistics of its class. */
  lemma {:induction false} GroupByClassCorrect(methods: seq<MethodContext>)
    ensures Grouped(GroupByClass(methods), methods)
  {
    if |methods| > 0 {
      var init := methods[..|methods| - 1];
      var m := methods[|methods| - 1];
      GroupByClassCorrect(init);
      var stats := GroupByClass(init);
      var r := AddMethod(stats, m);
      assert GroupByClass(methods) == r;
      var i := FindClass(stats, m.classIdentifier);
      assert methods == init + [m];
      assert forall j :: 0 <= j < |init| ==> init[j] == methods[j];
      AddKeepsOthers(stats, init, m, r);
      if i == -1 {
        FindClassAfterAppend(stats, m, methods);
      } else {
        FindClassAfterUpdate(stats, i, m, methods);
      }
    }
  }

  /** Helper of `GroupByClassCorrect`: `AddMethod` extends the statistics of
      the method's class and leaves every other statistics as it was. */
  lemma AddKeepsOthers(stats: seq<ClassStatistics>, init: seq<MethodContext>, m: MethodContext, r: seq<ClassStatistics>)
    requires Grouped(stats, init) && r == AddMethod(stats, m)
    ensures UniqueClasses(r)
    ensures forall k :: 0 <= k < |r| ==> r[k].methodContexts == MethodsOfClass(init + [m], r[k].classIdentifier)
  {
    var methods := init + [m];
    assert methods[..|methods| - 1] == init;
    var i := FindClass(stats, m.classIdentifier);
    if i == -1 {
      forall k | 0 <= k < |r| ensures r[k].methodContexts == MethodsOfClass(methods, r[k].classIdentifier) {
        if k < |stats| {
          assert r[k] == stats[k];
        } else {
          AbsentClassHasNoMethods(stats, init, m.classIdentifier);
        }
      }
    }
  }

  lemma FindClassAfterAppend(stats: seq<ClassStatistics>, m: MethodContext, methods: seq<MethodContext>)
    requires |methods| > 0 && methods[|methods| - 1] == m
    requires forall i :: 0 <= i < |methods| - 1 ==> FindClass(stats, methods[i].classIdentifier) >= 0
    ensures forall i :: 0 <= i < |methods| ==>
              FindClass(stats + [ClassStatistics(m.classIdentifier, [m])], methods[i].classIdentifier) >= 0
  {
    var r := stats + [ClassStatistics(m.classIdentifier, [m])];
    assert r[..|r| - 1] == stats;
  }

  lemma FindClassAfterUpdate(stats: seq<ClassStatistics>, i: int, m: MethodContext, methods: seq<MethodContext>)
    requires 0 <= i < |stats| && stats[i].classIdentifier == m.classIdentifier
    requires |methods| > 0 && methods[|methods| - 1] == m
    requires forall j :: 0 <= j < |methods| - 1 ==> FindClass(stats, methods[j].classIdentifier) >= 0
    ensures forall j :: 0 <= j < |methods| ==>
              FindClass(stats[i := stats[i].(methodContexts := stats[i].methodContexts + [m])], methods[j].classIdentifier) >= 0
  {
    var r := stats[i := stats[i].(methodContexts := stats[i].methodContexts + [m])];
    forall j | 0 <= j < |methods| ensures FindClass(r, methods[j].classIdentifier) >= 0 {
      var c := methods[j].classIdentifier;
      var f := if j < |methods| - 1 then FindClass(stats, c) else i;
      assert r[f].classIdentifier == c;
    }
  }

  /** The total number of method contexts over all statistics. */
  function TotalMethods(stats: seq<ClassStatistics>): nat {
    if |stats| == 0 then 0 else TotalMethods(stats[..|stats| - 1]) + |stats[|stats| - 1].methodContexts|
  }

  lemma {:induction false} TotalAfterUpdate(stats: seq<ClassStatistics>, i: int, c: ClassStatistics)
    requires 0 <= i < |stats|
    ensures TotalMethods(stats[i := c]) == TotalMethods(stats) - |stats[i].methodContexts| + |c.methodContexts|
  {
    var n := |stats| - 1;
    if i < n {
      assert stats[i := c][..n] == stats[..n][i := c];
      TotalAfterUpdate(stats[..n], i, c);
    } else {
      assert stats[i := c][..n] == stats[..n];
    }
  }

  /** Every method context is added to exactly one class statistics: the
      statistics together hold as many entries as there are methods. */
  lemma {:induction false} GroupByClassCountsEveryMethod(methods: seq<MethodContext>)
    ensures TotalMethods(GroupByClass(methods)) == |methods|
  {
    if |methods| > 0 {
      var init := methods[..|methods| - 1];
      var m := methods[|methods| - 1];
      GroupByClassCountsEveryMethod(init);
      var stats := GroupByClass(init);
      var i := FindClass(stats, m.classIdentifier);
      if i == -1 {
        var r := stats + [ClassStatistics(m.classIdentifier, [m])];
        assert r[..|r| - 1] == stats;
      } else {
        TotalAfterUpdate(stats, i, stats[i].(methodContexts := stats[i].methodContexts + [m]));
      }
    }
  }

  // ----------------------------------------------------------- method lookup

  /** The details `getMethodDetails` resolves to; `None` is `undefined`. */
  datatype MethodDetails = MethodDetails(methodContext: MethodContext, classStatistics: ClassStatistics)

  /** `methodContexts.find(contextValues.id == methodId)`. */
  function FindMethod(methods: seq<MethodContext>, methodId: string): (r: Option<MethodContext>)
    ensures r.None? <==> forall k :: 0 <= k < |methods| ==> methods[k].id != methodId
    ensures r.Some? ==> r.value in methods && r.value.id == methodId
  {
    if |methods| == 0 then None
    else if methods[0].id == methodId then Some(methods[0])
    else FindMethod(methods[1..], methodId)
  }

  /** `getMethodDetails`: the first class statistics holding the id wins. */
  function MethodDetailsOf(stats: seq<ClassStatistics>, methodId: string): (r: Option<MethodDetails>)
    ensures r.None? <==> forall k, j :: 0 <= k < |stats| && 0 <= j < |stats[k].methodContexts| ==>
                                        stats[k].methodContexts[j].id != methodId
    ensures r.Some? ==> r.value.classStatistics in stats
                        && r.value.methodContext in r.value.classStatistics.methodContexts
                        && r.value.methodContext.id == methodId
  {
    if |stats| == 0 then None
    else
      match FindMethod(stats[0].methodContexts, methodId)
      case Some(m) => Some(MethodDetails(m, stats[0]))
      case None =>
        var rest := MethodDetailsOf(stats[1..], methodId);
        assert forall k :: 1 <= k < |stats| ==> stats[k] == stats[1..][k - 1];
        rest
  }

  /** The lookup returns the first statistics containing the id: when
      statistics `k` holds it and none before does, the result is that
      statistics with its method context. */
  lemma {:induction false} MethodDetailsFirstMatch(stats: seq<ClassStatistics>, methodId: string, k: nat)
    requires k < |stats| && FindMethod(stats[k].methodContexts, methodId).Some?
    requires forall l :: 0 <= l < k ==> FindMethod(stats[l].methodContexts, methodId).None?
    ensures MethodDetailsOf(stats, methodId)
            == Some(MethodDetails(FindMethod(stats[k].methodContexts, methodId).value, stats[k]))
  {
    if k > 0 {
      assert FindMethod(stats[0].methodContexts, methodId).None?;
      assert stats[1..][k - 1] == stats[k];
      assert forall l :: 0 <= l < k - 1 ==> stats[1..][l] == stats[l + 1];
      MethodDetailsFirstMatch(stats[1..], methodId, k - 1);
    }
  }
}
