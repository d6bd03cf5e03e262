/** `Defaults.load`: a property value checked against a pattern. */
module Defaults {
  import opened Wrappers
  import opened DimensionPattern

  const DEFAULT_DISPLAY_RESOLUTION: string := "1920x1200"
  const DISPLAY_RESOLUTION_PATTERN: string := "\\d+x\\d+"

  /** `load`: the property, or the default when it is absent, if the
      pattern is found in it; the `TesterraRuntimeException` otherwise.
      `found` is `Matcher.find` for `pattern`. */
  function Load(property: string, propertyValue: Option<string>, defaultValue: string, pattern: string,
                found: string -> bool)
    : (r: Result<string, string>)
    ensures var value := if propertyValue.Some? then propertyValue.value else defaultValue;
            (r.Ok? <==> found(value))
            && (r.Ok? ==> r.value == value)
            && (r.Err? ==> r.error == property + " does not match pattern " + pattern + " : " + value)
  {
    var value := if propertyValue.Some? then propertyValue.value else defaultValue;
    if found(value) then Ok(value) else Err(property + " does not match pattern " + pattern + " : " + value)
  }

  /** `Matcher.find` for `\d+x\d+`. */
  predicate FoundDimension(s: string) {
    Find(s).Some?
  }

  /** `DISPLAY_RESOLUTION`; the property's name is a parameter. */
  function DisplayResolution(property: string, propertyValue: Option<string>): Result<string, string> {
    Load(property, propertyValue, DEFAULT_DISPLAY_RESOLUTION, DISPLAY_RESOLUTION_PATTERN, FoundDimension)
  }

  /** The default resolution satisfies its own pattern, so without the
      property the class initialises to "1920x1200". */
  lemma DefaultResolutionLoads()
    ensures forall property :: DisplayResolution(property, None) == Ok(DEFAULT_DISPLAY_RESOLUTION)
  {
    FindWhole("1920", "1200");
    assert "1920" + "x" + "1200" == DEFAULT_DISPLAY_RESOLUTION;
  }

  /** A value without any `WxH` is refused. */
  lemma ResolutionWithoutDimensionFails(property: string, value: string)
    requires forall k :: 0 <= k < |value| ==> value[k] != 'x'
    ensures DisplayResolution(property, Some(value)).Err?
  {
    forall k: nat ensures !MatchesAt(value, k) {
      if k < |value| && RunEnd(value, k) < |value| {
        assert value[RunEnd(value, k)] != 'x';
      }
    }
  }
}
