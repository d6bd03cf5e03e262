/** `TestNGHelper`: a value taken from the first of several getters that
    neither throws nor returns `null`. */
module TestNGHelper {
  import opened Wrappers

  /** What one getter does when it is run. */
  datatype Attempt<T> = Throws | ReturnsNull | Returns(value: T)

  const COULD_NOT_GET: string := "Could not get "

  /** The position of the first getter that returns a value. */
  function FirstReturning<T(==)>(getters: seq<Attempt<T>>): (i: Option<nat>)
    ensures i.None? <==> forall k :: 0 <= k < |getters| ==> !getters[k].Returns?
    ensures i.Some? ==> i.value < |getters| && getters[i.value].Returns?
                        && forall k :: 0 <= k < i.value ==> !getters[k].Returns?
  {
    if |getters| == 0 then None
    else if getters[0].Returns? then Some(0)
    else
      match FirstReturning(getters[1..])
      case None => None
      case Some(i) => Some(i + 1)
  }

  /** `tryAny`: the getters are run in order, a throw or a `null` is
      ignored, and the first value wins; a `null` array or no value at all
      is the `SystemException` naming the scope. */
  function TryAny<T(==)>(scope: string, getters: Option<seq<Attempt<T>>>): (r: Result<T, string>)
    ensures r.Ok? <==> getters.Some? && exists k :: 0 <= k < |getters.value| && getters.value[k].Returns?
    ensures r.Ok? ==> exists k :: 0 <= k < |getters.value| && getters.value[k] == Returns(r.value)
                                  && forall j :: 0 <= j < k ==> !getters.value[j].Returns?
    ensures r.Err? ==> r.error == COULD_NOT_GET + scope
  {
    match getters
    case None => Err(COULD_NOT_GET + scope)
    case Some(gs) => TryEach(scope, gs)
  }

  /** The loop over the getters. */
  function TryEach<T(==)>(scope: string, getters: seq<Attempt<T>>): (r: Result<T, string>)
    ensures r.Err? ==> r.error == COULD_NOT_GET + scope
    ensures r.Ok? ==> exists k :: 0 <= k < |getters| && getters[k] == Returns(r.value)
                                  && forall j :: 0 <= j < k ==> !getters[j].Returns?
    ensures r.Err? ==> forall k :: 0 <= k < |getters| ==> !getters[k].Returns?
    decreases |getters|
  {
    if |getters| == 0 then Err(COULD_NOT_GET + scope)
    else
      match getters[0]
      case Returns(v) => Ok(v)
      case _ =>
        var r := TryEach(scope, getters[1..]);
        assert forall k :: 1 <= k < |getters| ==> getters[k] == getters[1..][k - 1];
        if r.Ok? then
          var k :| 0 <= k < |getters[1..]| && getters[1..][k] == Returns(r.value)
                   && forall j :: 0 <= j < k ==> !getters[1..][j].Returns?;
          assert getters[k + 1] == Returns(r.value);
          r
        else r
  }

  /** One turn of the loop: a getter that returns ends it, any other goes
      on with the rest. */
  lemma TryEachStep<T>(scope: string, g: Attempt<T>, rest: seq<Attempt<T>>)
    ensures TryEach(scope, [g] + rest) == if g.Returns? then Ok(g.value) else TryEach(scope, rest)
  {
    assert ([g] + rest)[1..] == rest;
  }

  /** `tryAny` agrees with the first returning getter. */
  lemma TryAnyIsFirstReturning<T>(scope: string, getters: seq<Attempt<T>>)
    ensures var i := FirstReturning(getters);
            TryAny(scope, Some(getters)) == (if i.Some? then Ok(getters[i.value].value) else Err(COULD_NOT_GET + scope))
  {
    var i := FirstReturning(getters);
    var r := TryAny(scope, Some(getters));
    if r.Ok? {
      var k :| 0 <= k < |getters| && getters[k] == Returns(r.value)
               && forall j :: 0 <= j < k ==> !getters[j].Returns?;
      assert i.Some?;
      assert i.value == k by {
        assert getters[i.value].Returns? && getters[k].Returns?;
      }
    }
  }

  /** Getters after the first that returns are never run: whatever they
      would do, the result is the same. */
  lemma {:induction false} LaterGettersIgnored<T>(scope: string, getters: seq<Attempt<T>>, later: seq<Attempt<T>>, v: T)
    requires Returns(v) in getters
    ensures TryEach(scope, getters + later) == TryEach(scope, getters)
  {
    assert (getters + later)[0] == getters[0];
    if !getters[0].Returns? {
      assert (getters + later)[1..] == getters[1..] + later;
      assert Returns(v) in getters[1..] by {
        var k :| 0 <= k < |getters| && getters[k] == Returns(v);
        assert k > 0 && getters[1..][k - 1] == Returns(v);
      }
      LaterGettersIgnored(scope, getters[1..], later, v);
    }
  }

  // ---------------------------------------------------------- the callers

  /** `tryAny` over two getters, as `getSuiteName`, `getTestName` and
      `getTestMethod` call it: the first getter's value, else the
      second's, else the exception naming the scope. */
  function TryTwo<T(==)>(scope: string, first: Attempt<T>, second: Attempt<T>): (r: Result<T, string>)
    ensures first.Returns? ==> r == Ok(first.value)
    ensures !first.Returns? ==> r == (if second.Returns? then Ok(second.value) else Err(COULD_NOT_GET + scope))
  {
    TryEachStep(scope, first, [second]);
    TryEachStep(scope, second, []);
    TryAny(scope, Some([first, second]))
  }

  /** `getSuiteName`: the suite of the result's test context first, then
      the suite of the given test context. */
  function SuiteName(fromTestResult: Attempt<string>, fromTestContext: Attempt<string>): Result<string, string> {
    TryTwo("SuiteName", fromTestResult, fromTestContext)
  }

  /** `getTestName`: the current XML test of the result's context first,
      then that of the given context. */
  function TestName(fromTestResult: Attempt<string>, fromTestContext: Attempt<string>): Result<string, string> {
    TryTwo("TestName", fromTestResult, fromTestContext)
  }

  /** `getTestClass`: four sources in order — the result's class, the
      invoked method's test method's class, the invoked method's result's
      class, the result's method's class. */
  function TestClass<C(==)>(fromTestResult: Attempt<C>, fromInvokedTestMethod: Attempt<C>,
                        fromInvokedTestResult: Attempt<C>, fromResultMethod: Attempt<C>)
    : (r: Result<C, string>)
    ensures fromTestResult.Returns? ==> r == Ok(fromTestResult.value)
    ensures r.Err? <==> !fromTestResult.Returns? && !fromInvokedTestMethod.Returns?
                        && !fromInvokedTestResult.Returns? && !fromResultMethod.Returns?
    ensures r.Err? ==> r.error == COULD_NOT_GET + "TestClass"
    ensures !fromTestResult.Returns? && fromInvokedTestMethod.Returns? ==> r == Ok(fromInvokedTestMethod.value)
    ensures !fromTestResult.Returns? && !fromInvokedTestMethod.Returns? && fromInvokedTestResult.Returns? ==>
              r == Ok(fromInvokedTestResult.value)
    ensures (!fromTestResult.Returns? && !fromInvokedTestMethod.Returns? && !fromInvokedTestResult.Returns?
             && fromResultMethod.Returns?) ==> r == Ok(fromResultMethod.value)
  {
    var scope := "TestClass";
    TryEachStep(scope, fromTestResult, [fromInvokedTestMethod, fromInvokedTestResult, fromResultMethod]);
    TryEachStep(scope, fromInvokedTestMethod, [fromInvokedTestResult, fromResultMethod]);
    TryEachStep(scope, fromInvokedTestResult, [fromResultMethod]);
    TryEachStep(scope, fromResultMethod, []);
    TryAny(scope, Some([fromTestResult, fromInvokedTestMethod, fromInvokedTestResult, fromResultMethod]))
  }

  /** `getTestMethod`: the result's method first, then the invoked
      method's test method. */
  function TestMethod<M(==)>(fromTestResult: Attempt<M>, fromInvokedMethod: Attempt<M>): Result<M, string> {
    TryTwo("TestMethod", fromTestResult, fromInvokedMethod)
  }
}
