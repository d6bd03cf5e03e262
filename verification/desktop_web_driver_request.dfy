/** `DesktopWebDriverRequest`: the window size read from the `WINDOW_SIZE`
    property, and the default server URL. */
module DesktopWebDriverRequest {
  import opened Wrappers
  import opened JavaInt
  import opened Strings
  import opened DimensionPattern

  const DEFAULT_WIDTH: int := 1920
  const DEFAULT_HEIGHT: int := 1080
  const NUMBER_FORMAT_ERROR: string := "NumberFormatException"
  const MALFORMED_URL_ERROR: string := "Unable to retrieve default Selenium URL from properties"

  datatype Dimension = Dimension(width: int, height: int)

  /** `Integer.parseInt` of a digit run: the value, or the exception for a
      value beyond `Integer.MAX_VALUE`. */
  function ParseInt(digits: string): (r: Result<int, string>)
    requires |digits| > 0 && AllDigits(digits)
    ensures r.Ok? <==> DigitsToNat(digits) <= INT_MAX
    ensures r.Ok? ==> r.value == DigitsToNat(digits) && 0 <= r.value && IsInt32(r.value)
  {
    if DigitsToNat(digits) <= INT_MAX then Ok(DigitsToNat(digits)) else Err(NUMBER_FORMAT_ERROR)
  }

  /** `getWindowSize`: 1920x1080 without the property or without a match;
      otherwise the groups of the first match, and the exception of
      `parseInt` when a group does not fit an `int`. */
  function WindowSize(windowSizeProperty: Option<string>): (r: Result<Dimension, string>)
    ensures windowSizeProperty.None? ==> r == Ok(Dimension(DEFAULT_WIDTH, DEFAULT_HEIGHT))
    ensures windowSizeProperty.Some? && Find(windowSizeProperty.value).None? ==>
              r == Ok(Dimension(DEFAULT_WIDTH, DEFAULT_HEIGHT))
    ensures windowSizeProperty.Some? && Find(windowSizeProperty.value).Some? ==>
              var g := Groups(windowSizeProperty.value, Find(windowSizeProperty.value).value);
              r == if DigitsToNat(g.0) <= INT_MAX && DigitsToNat(g.1) <= INT_MAX
                   then Ok(Dimension(DigitsToNat(g.0), DigitsToNat(g.1)))
                   else Err(NUMBER_FORMAT_ERROR)
    ensures r.Ok? ==> 0 <= r.value.width && 0 <= r.value.height && IsInt32(r.value.width) && IsInt32(r.value.height)
    ensures r.Err? ==> r.error == NUMBER_FORMAT_ERROR
  {
    match windowSizeProperty
    case None => Ok(Dimension(DEFAULT_WIDTH, DEFAULT_HEIGHT))
    case Some(value) =>
      match Find(value)
      case None => Ok(Dimension(DEFAULT_WIDTH, DEFAULT_HEIGHT))
      case Some(i) =>
        var groups := Groups(value, i);
        match ParseInt(groups.0)
        case Err(e) => Err(e)
        case Ok(width) =>
          match ParseInt(groups.1)
          case Err(e) => Err(e)
          case Ok(height) => Ok(Dimension(width, height))
  }

  /** The first `WxH` in a value is taken, wherever it sits: a value such
      as `size 1280x720 px` gives 1280 by 720. */
  lemma WindowSizeFindsEmbedded(prefix: string, width: nat, height: nat, suffix: string)
    requires forall k :: 0 <= k < |prefix| ==> !IsDigit(prefix[k])
    requires |suffix| == 0 || !IsDigit(suffix[0])
    requires width <= INT_MAX && height <= INT_MAX
    ensures WindowSize(Some(prefix + NatToString(width) + "x" + NatToString(height) + suffix))
            == Ok(Dimension(width, height))
  {
    FindEmbedded(prefix, NatToString(width), NatToString(height), suffix);
  }

  /** The property written as `Integer.toString(w) + "x" + Integer.toString(h)`
      reads back as the same dimension. */
  lemma WindowSizeRoundTrip(width: nat, height: nat)
    requires width <= INT_MAX && height <= INT_MAX
    ensures WindowSize(Some(NatToString(width) + "x" + NatToString(height))) == Ok(Dimension(width, height))
  {
    WindowSizeOfDigits(NatToString(width), NatToString(height));
  }

  /** A width beyond `Integer.MAX_VALUE` makes `getWindowSize` throw rather
      than fall back to the default. */
  lemma WindowSizeOverflowThrows(width: nat, height: nat)
    requires width > INT_MAX
    ensures WindowSize(Some(NatToString(width) + "x" + NatToString(height))).Err?
  {
    WindowSizeOfDigits(NatToString(width), NatToString(height));
  }

  /** A value that is exactly two digit runs around an `x` gives their
      values, or the `parseInt` exception when either does not fit an
      `int`. */
  lemma WindowSizeOfDigits(w: string, h: string)
    requires |w| > 0 && AllDigits(w) && |h| > 0 && AllDigits(h)
    ensures WindowSize(Some(w + "x" + h))
            == if DigitsToNat(w) <= INT_MAX && DigitsToNat(h) <= INT_MAX
               then Ok(Dimension(DigitsToNat(w), DigitsToNat(h)))
               else Err(NUMBER_FORMAT_ERROR)
  {
    FindWhole(w, h);
  }

  // ------------------------------------------------------------- server URL

  /** `getServerUrl`: a present URL is kept; otherwise the first valid of
      the `SELENIUM_SERVER_URL` property and the URL built from host and
      port is parsed, and a malformed one is an error. Whether a string is
      a well-formed URL is a parameter. */
  function ServerUrl(serverUrl: Option<string>, serverUrlProperty: Option<string>, host: string, port: string,
                     wellFormed: string -> bool)
    : (r: Result<string, string>)
    ensures serverUrl.Some? ==> r == Ok(serverUrl.value)
    ensures serverUrl.None? ==>
              var candidate := FirstValid(serverUrlProperty, DefaultServerUrl(host, port));
              (r.Ok? <==> wellFormed(candidate)) && (r.Ok? ==> r.value == candidate)
    ensures r.Err? ==> r.error == MALFORMED_URL_ERROR
  {
    if serverUrl.Some? then Ok(serverUrl.value)
    else
      var candidate := FirstValid(serverUrlProperty, DefaultServerUrl(host, port));
      if wellFormed(candidate) then Ok(candidate) else Err(MALFORMED_URL_ERROR)
  }

  function DefaultServerUrl(host: string, port: string): string {
    "http://" + host + ":" + port + "/wd/hub"
  }

  /** `StringUtils.getFirstValidString` of a property and a fallback: the
      property when it is set and not empty. */
  function FirstValid(first: Option<string>, fallback: string): (r: string)
    ensures first.Some? && |first.value| > 0 ==> r == first.value
    ensures first.None? || |first.value| == 0 ==> r == fallback
  {
    if first.Some? && |first.value| > 0 then first.value else fallback
  }

  /** Without a URL set, a non-empty `SELENIUM_SERVER_URL` is the one
      used; an absent or empty one gives the URL built from host and port.
      Either is returned iff it is well-formed. */
  lemma ServerUrlChoice(serverUrlProperty: Option<string>, host: string, port: string, wellFormed: string -> bool)
    ensures var r := ServerUrl(None, serverUrlProperty, host, port, wellFormed);
            var used := if serverUrlProperty.Some? && |serverUrlProperty.value| > 0 then serverUrlProperty.value
                        else DefaultServerUrl(host, port);
            (r.Ok? <==> wellFormed(used)) && (r.Ok? ==> r.value == used)
            && (r.Err? ==> r.error == MALFORMED_URL_ERROR)
  {
  }

  /** Asking twice gives the same URL: once set, it is kept. */
  lemma ServerUrlStable(serverUrl: Option<string>, serverUrlProperty: Option<string>, host: string, port: string,
                        wellFormed: string -> bool)
    ensures var first := ServerUrl(serverUrl, serverUrlProperty, host, port, wellFormed);
            first.Ok? ==> ServerUrl(Some(first.value), serverUrlProperty, host, port, wellFormed) == first
  {
  }
}
