/** `WebDriverCapabilityLogHelper`: capabilities copied into a sorted
    `TreeMap`, with the extension strings cut down to ten characters. */
module CapabilityLogHelper {
  import opened Wrappers

  // ---------------------------------------------------------- key ordering

  /** `String.compareTo(a, b) < 0`: lexicographic by character, a proper
      prefix first. */
  predicate Less(a: string, b: string)
    decreases |a|
  {
    if |a| == 0 then |b| > 0
    else if |b| == 0 then false
    else if a[0] != b[0] then a[0] < b[0]
    else Less(a[1..], b[1..])
  }

  lemma {:induction false} LessIrreflexive(a: string)
    ensures !Less(a, a)
    decreases |a|
  {
    if |a| > 0 {
      LessIrreflexive(a[1..]);
    }
  }

  /** Two different keys are ordered one way or the other. */
  lemma {:induction false} LessTotal(a: string, b: string)
    requires a != b
    ensures Less(a, b) || Less(b, a)
    decreases |a|
  {
    if |a| > 0 && |b| > 0 && a[0] == b[0] {
      assert a == [a[0]] + a[1..] && b == [b[0]] + b[1..];
      LessTotal(a[1..], b[1..]);
    }
  }

  lemma {:induction false} LessAsymmetric(a: string, b: string)
    requires Less(a, b)
    ensures !Less(b, a)
    decreases |a|
  {
    if |a| > 0 && |b| > 0 && a[0] == b[0] {
      LessAsymmetric(a[1..], b[1..]);
    }
  }

  lemma {:induction false} LessTransitive(a: string, b: string, c: string)
    requires Less(a, b) && Less(b, c)
    ensures Less(a, c)
    decreases |a|
  {
    if |a| > 0 && |b| > 0 && |c| > 0 && a[0] == b[0] && b[0] == c[0] {
      LessTransitive(a[1..], b[1..], c[1..]);
    }
  }

  // ------------------------------------------------------------ capability maps

  /** A capability value: a string, a list of strings, a nested map (such
      as the chrome options), or anything else. */
  datatype Value = Text(text: string) | TextList(items: seq<string>) | Nested(entries: seq<Entry>) | Opaque
  datatype Entry = Entry(key: string, value: Value)

  function Keys(entries: seq<Entry>): set<string> {
    set k | 0 <= k < |entries| :: entries[k].key
  }

  predicate DistinctKeys(entries: seq<Entry>) {
    forall k, l :: 0 <= k < l < |entries| ==> entries[k].key != entries[l].key
  }

  /** Strictly increasing keys: the iteration order of a `TreeMap`. */
  predicate SortedKeys(entries: seq<Entry>) {
    forall k, l :: 0 <= k < l < |entries| ==> Less(entries[k].key, entries[l].key)
  }

  /** `map.get(key)`; `None` is `null` for an absent key. */
  function Get(entries: seq<Entry>, key: string): (r: Option<Value>)
    ensures r.None? <==> key !in Keys(entries)
    ensures r.Some? ==> Entry(key, r.value) in entries
  {
    if |entries| == 0 then None
    else if entries[0].key == key then Some(entries[0].value)
    else
      var r := Get(entries[1..], key);
      assert Keys(entries) == {entries[0].key} + Keys(entries[1..]) by {
        assert forall k :: 1 <= k < |entries| ==> entries[k] == entries[1..][k - 1];
      }
      r
  }

  /** `map.put(key, value)` for a key that is present: the entry keeps its
      place, so the order is kept. */
  function Replace(entries: seq<Entry>, key: string, value: Value): (r: seq<Entry>)
    ensures |r| == |entries|
    ensures forall k :: 0 <= k < |r| ==> r[k].key == entries[k].key
    ensures forall k :: 0 <= k < |r| ==> r[k].value == (if entries[k].key == key then value else entries[k].value)
  {
    seq(|entries|, k requires 0 <= k < |entries| =>
      if entries[k].key == key then Entry(key, value) else entries[k])
  }

  /** One insertion into a `TreeMap`. */
  function Insert(e: Entry, sorted: seq<Entry>): (r: seq<Entry>)
    requires SortedKeys(sorted) && e.key !in Keys(sorted)
    ensures SortedKeys(r)
    ensures multiset(r) == multiset(sorted) + multiset{e}
    ensures Keys(r) == Keys(sorted) + {e.key}
    decreases |sorted|
  {
    if |sorted| == 0 then [e]
    else if Less(e.key, sorted[0].key) then
      InsertFrontSorted(e, sorted);
      KeysCons(e, sorted);
      [e] + sorted
    else
      assert e.key != sorted[0].key by {
        assert sorted[0].key in Keys(sorted);
      }
      LessTotal(e.key, sorted[0].key);
      assert sorted == [sorted[0]] + sorted[1..];
      KeysCons(sorted[0], sorted[1..]);
      var rest := Insert(e, sorted[1..]);
      HeadBeforeAll(sorted[0], rest, sorted[1..], e);
      KeysCons(sorted[0], rest);
      [sorted[0]] + rest
  }

  lemma InsertFrontSorted(e: Entry, sorted: seq<Entry>)
    requires SortedKeys(sorted) && |sorted| > 0 && Less(e.key, sorted[0].key)
    ensures SortedKeys([e] + sorted)
  {
    forall l | 1 <= l < |sorted| + 1 ensures Less(e.key, ([e] + sorted)[l].key) {
      if l > 1 {
        LessTransitive(e.key, sorted[0].key, sorted[l - 1].key);
      }
    }
  }

  lemma KeysCons(e: Entry, s: seq<Entry>)
    ensures Keys([e] + s) == {e.key} + Keys(s)
  {
    var t := [e] + s;
    assert t[0] == e;
    forall x | x in Keys(s) ensures x in Keys(t) {
      var k :| 0 <= k < |s| && s[k].key == x;
      assert t[k + 1] == s[k];
    }
    forall x | x in Keys(t) ensures x in {e.key} + Keys(s) {
      var k :| 0 <= k < |t| && t[k].key == x;
      if k > 0 {
        assert t[k] == s[k - 1];
      }
    }
  }

  lemma HeadBeforeAll(head: Entry, rest: seq<Entry>, tail: seq<Entry>, e: Entry)
    requires SortedKeys(rest) && SortedKeys([head] + tail)
    requires Keys(rest) == Keys(tail) + {e.key} && Less(head.key, e.key)
    ensures SortedKeys([head] + rest)
  {
    forall l | 1 <= l < |rest| + 1 ensures Less(head.key, ([head] + rest)[l].key) {
      var key := rest[l - 1].key;
      assert ([head] + rest)[l] == rest[l - 1];
      assert key in Keys(rest);
      if key != e.key {
        assert key in Keys(tail);
        var m :| 0 <= m < |tail| && tail[m].key == key;
        assert ([head] + tail)[m + 1] == tail[m];
        assert ([head] + tail)[0] == head;
        assert Less(([head] + tail)[0].key, ([head] + tail)[m + 1].key);
      }
    }
  }

  /** `new TreeMap<>(capabilities.asMap())`: the entries of the map in key
      order. */
  function ToTreeMap(entries: seq<Entry>): (r: seq<Entry>)
    requires DistinctKeys(entries)
    ensures SortedKeys(r)
    ensures multiset(r) == multiset(entries)
    ensures Keys(r) == Keys(entries)
  {
    if |entries| == 0 then []
    else
      var init := entries[..|entries| - 1];
      var last := entries[|entries| - 1];
      assert Keys(entries) == Keys(init) + {last.key} by {
        assert forall k :: 0 <= k < |init| ==> init[k] == entries[k];
      }
      assert last.key !in Keys(init) by {
        assert forall k :: 0 <= k < |init| ==> init[k] == entries[k];
      }
      assert entries == init + [last];
      Insert(last, ToTreeMap(init))
  }

  // ---------------------------------------------------------- shortening

  const EXTENSIONS: string := "extensions"
  const CHROME_OPTIONS: string := "goog:chromeOptions"
  const SHORT_LENGTH: nat := 10
  const ELLIPSIS: string := "..."
  const CLASS_CAST: string := "ClassCastException"
  const INDEX_OUT_OF_BOUNDS: string := "StringIndexOutOfBoundsException"

  /** `e.substring(0, 10) + "..."`; a shorter string makes `substring`
      throw. */
  function Shorten(e: string): (r: Result<string, string>)
    ensures r.Ok? <==> |e| >= SHORT_LENGTH
    ensures r.Ok? ==> |r.value| == 13 && r.value[..SHORT_LENGTH] == e[..SHORT_LENGTH] && r.value[SHORT_LENGTH..] == ELLIPSIS
  {
    if |e| >= SHORT_LENGTH then Ok(e[..SHORT_LENGTH] + ELLIPSIS) else Err(INDEX_OUT_OF_BOUNDS)
  }

  /** `shortAllStringsInLists`: the cast to a list fails for anything else. */
  function ShortenAll(v: Value): (r: Result<seq<string>, string>)
    ensures r.Ok? <==> v.TextList? && forall k :: 0 <= k < |v.items| ==> |v.items[k]| >= SHORT_LENGTH
    ensures r.Ok? ==> |r.value| == |v.items|
                      && forall k :: 0 <= k < |r.value| ==> r.value[k] == v.items[k][..SHORT_LENGTH] + ELLIPSIS
  {
    if !v.TextList? then Err(CLASS_CAST)
    else ShortenItems(v.items)
  }

  function ShortenItems(items: seq<string>): (r: Result<seq<string>, string>)
    ensures r.Ok? <==> forall k :: 0 <= k < |items| ==> |items[k]| >= SHORT_LENGTH
    ensures r.Ok? ==> |r.value| == |items|
                      && forall k :: 0 <= k < |r.value| ==> r.value[k] == items[k][..SHORT_LENGTH] + ELLIPSIS
  {
    if |items| == 0 then Ok([])
    else
      match Shorten(items[0])
      case Err(e) => Err(e)
      case Ok(head) =>
        match ShortenItems(items[1..])
        case Err(e) =>
          assert forall k :: 1 <= k < |items| ==> items[k] == items[1..][k - 1];
          Err(e)
        case Ok(rest) =>
          assert forall k :: 1 <= k < |items| ==> items[k] == items[1..][k - 1];
          Ok([head] + rest)
  }

  /** An `extensions` value the shortening accepts: absent, or a list of
      strings of at least ten characters each. */
  predicate Shortenable(extensions: Option<Value>) {
    extensions.None? || ShortenAll(extensions.value).Ok?
  }

  /** What `get("extensions")` gives after the shortening, for the value it
      gave before: a non-empty list becomes the list of shortened strings,
      anything else is kept. */
  function Shortened(extensions: Option<Value>): Option<Value>
    requires Shortenable(extensions)
  {
    if extensions.Some? && |extensions.value.items| > 0 then Some(TextList(ShortenAll(extensions.value).value))
    else extensions
  }

  /** The `extensions` entry of a map, shortened; an empty list is left as
      it is. */
  function ShortenExtensions(entries: seq<Entry>): (r: Result<seq<Entry>, string>)
    ensures r.Err? <==> Get(entries, EXTENSIONS).Some? && ShortenAll(Get(entries, EXTENSIONS).value).Err?
    ensures r.Ok? ==> |r.value| == |entries|
    ensures r.Ok? ==> forall k :: 0 <= k < |entries| ==> r.value[k].key == entries[k].key
    ensures r.Ok? ==> forall k :: 0 <= k < |entries| && entries[k].key != EXTENSIONS ==> r.value[k] == entries[k]
    ensures r.Ok? ==> Get(r.value, EXTENSIONS) == Shortened(Get(entries, EXTENSIONS))
  {
    match Get(entries, EXTENSIONS)
    case None => Ok(entries)
    case Some(extensions) =>
      match ShortenAll(extensions)
      case Err(e) => Err(e)
      case Ok(short) =>
        if |short| > 0 then
          GetReplace(entries, EXTENSIONS, TextList(short), EXTENSIONS);
          Ok(Replace(entries, EXTENSIONS, TextList(short)))
        else Ok(entries)
  }

  /** The first half of `shortChromeExtensionStrings`: the chrome options
      (which must be a map) get their `extensions` entry shortened. */
  function ShortenChromeOptions(entries: seq<Entry>): (r: Result<seq<Entry>, string>)
    ensures r.Ok? ==> |r.value| == |entries|
    ensures r.Ok? ==> forall k :: 0 <= k < |entries| ==> r.value[k].key == entries[k].key
    ensures r.Ok? ==> forall k :: 0 <= k < |entries| && entries[k].key != CHROME_OPTIONS ==> r.value[k] == entries[k]
    ensures r.Ok? ==> Get(r.value, EXTENSIONS) == Get(entries, EXTENSIONS)
    ensures var options := Get(entries, CHROME_OPTIONS);
            && (options.None? ==> r == Ok(entries))
            && (options.Some? && !options.value.Nested? ==> r == Err(CLASS_CAST))
            && (options.Some? && options.value.Nested? ==>
                  (r.Err? <==> ShortenExtensions(options.value.entries).Err?)
                  && (r.Ok? ==> Get(r.value, CHROME_OPTIONS) == Some(Nested(ShortenExtensions(options.value.entries).value))))
  {
    match Get(entries, CHROME_OPTIONS)
    case None => Ok(entries)
    case Some(Nested(options)) =>
      (match ShortenExtensions(options)
       case Err(e) => Err(e)
       case Ok(shortOptions) =>
         GetReplace(entries, CHROME_OPTIONS, Nested(shortOptions), EXTENSIONS);
         GetReplace(entries, CHROME_OPTIONS, Nested(shortOptions), CHROME_OPTIONS);
         Ok(Replace(entries, CHROME_OPTIONS, Nested(shortOptions))))
    case Some(_) => Err(CLASS_CAST)
  }

  /** The chrome options make `shortChromeExtensionStrings` throw: they are
      not a map, or their `extensions` cannot be shortened. */
  predicate ChromeOptionsRejected(entries: seq<Entry>) {
    var options := Get(entries, CHROME_OPTIONS);
    options.Some? && (!options.value.Nested? || !Shortenable(Get(options.value.entries, EXTENSIONS)))
  }

  /** `shortChromeExtensionStrings`: the chrome options' extensions first,
      then the top-level extensions. */
  function ShortChromeExtensionStrings(entries: seq<Entry>): (r: Result<seq<Entry>, string>)
    ensures r.Ok? ==> |r.value| == |entries|
    ensures r.Ok? ==> forall k :: 0 <= k < |entries| ==> r.value[k].key == entries[k].key
    ensures r.Ok? ==> forall k :: 0 <= k < |entries| && entries[k].key != EXTENSIONS && entries[k].key != CHROME_OPTIONS ==>
                        r.value[k] == entries[k]
    ensures var options := Get(entries, CHROME_OPTIONS);
            options.Some? && !options.value.Nested? ==> r == Err(CLASS_CAST)
    ensures var options := Get(entries, CHROME_OPTIONS);
            options.Some? && options.value.Nested? && ShortenExtensions(options.value.entries).Err? ==> r.Err?
    ensures var options := Get(entries, CHROME_OPTIONS);
            r.Ok? && options.Some? ==>
              options.value.Nested? && ShortenExtensions(options.value.entries).Ok?
              && Get(r.value, CHROME_OPTIONS) == Some(Nested(ShortenExtensions(options.value.entries).value))
    ensures var options := Get(entries, CHROME_OPTIONS);
            options.None? || (options.value.Nested? && ShortenExtensions(options.value.entries).Ok?) ==>
              (r.Err? <==> ShortenExtensions(entries).Err?)
    ensures r.Err? <==> ChromeOptionsRejected(entries) || !Shortenable(Get(entries, EXTENSIONS))
    ensures r.Ok? ==> Get(r.value, EXTENSIONS) == Shortened(Get(entries, EXTENSIONS))
  {
    match ShortenChromeOptions(entries)
    case Err(e) => Err(e)
    case Ok(current) =>
      var r := ShortenExtensions(current);
      if r.Ok? then
        GetAgrees(r.value, current, CHROME_OPTIONS);
        r
      else r
  }

  /** `get` after `put` on a present key: the new value under that key, the
      old value under every other. */
  lemma {:induction false} GetReplace(entries: seq<Entry>, key: string, value: Value, other: string)
    ensures Get(Replace(entries, key, value), other)
            == if other == key && Get(entries, key).Some? then Some(value) else Get(entries, other)
  {
    if |entries| > 0 {
      var r := Replace(entries, key, value);
      assert r[0] == if entries[0].key == key then Entry(key, value) else entries[0];
      assert r[1..] == Replace(entries[1..], key, value);
      GetReplace(entries[1..], key, value, other);
    }
  }


  /** `clean`: the capabilities in key order with shortened extensions.
      It throws exactly when the chrome options or the top-level
      extensions are refused. */
  function Clean(capabilities: seq<Entry>): (r: Result<seq<Entry>, string>)
    requires DistinctKeys(capabilities)
    ensures r.Ok? ==> SortedKeys(r.value) && Keys(r.value) == Keys(capabilities)
    ensures r.Err? <==> ChromeOptionsRejected(capabilities) || !Shortenable(Get(capabilities, EXTENSIONS))
    ensures r.Ok? ==> Get(r.value, EXTENSIONS) == Shortened(Get(capabilities, EXTENSIONS))
    ensures var options := Get(capabilities, CHROME_OPTIONS);
            r.Ok? && options.Some? ==>
              Get(r.value, CHROME_OPTIONS) == Some(Nested(ShortenExtensions(options.value.entries).value))
  {
    var sorted := ToTreeMap(capabilities);
    GetPermutation(sorted, capabilities, EXTENSIONS);
    GetPermutation(sorted, capabilities, CHROME_OPTIONS);
    match ShortChromeExtensionStrings(sorted)
    case Err(e) => Err(e)
    case Ok(cleaned) =>
      assert Keys(cleaned) == Keys(sorted) by {
        assert forall k :: 0 <= k < |cleaned| ==> cleaned[k].key == sorted[k].key;
      }
      Ok(cleaned)
  }

  /** Every capability other than `extensions` and the chrome options
      comes out with its value untouched. */
  lemma CleanKeepsOtherCapabilities(capabilities: seq<Entry>, key: string)
    requires DistinctKeys(capabilities)
    requires key != EXTENSIONS && key != CHROME_OPTIONS
    ensures var r := Clean(capabilities);
            r.Ok? ==> Get(r.value, key) == Get(capabilities, key)
  {
    var sorted := ToTreeMap(capabilities);
    var r := Clean(capabilities);
    if r.Ok? {
      var cleaned := ShortChromeExtensionStrings(sorted).value;
      assert r.value == cleaned;
      GetAgrees(cleaned, sorted, key);
      GetPermutation(sorted, capabilities, key);
    }
  }

  /** Two maps with the same keys in the same places and the same value
      under `key` agree on `get(key)`. */
  lemma {:induction false} GetAgrees(a: seq<Entry>, b: seq<Entry>, key: string)
    requires |a| == |b|
    requires forall k :: 0 <= k < |a| ==> a[k].key == b[k].key
    requires forall k :: 0 <= k < |a| && b[k].key == key ==> a[k] == b[k]
    ensures Get(a, key) == Get(b, key)
  {
    if |a| > 0 {
      GetAgrees(a[1..], b[1..], key);
    }
  }

  /** `get` does not depend on the order of a map with distinct keys. */
  lemma GetPermutation(a: seq<Entry>, b: seq<Entry>, key: string)
    requires multiset(a) == multiset(b) && DistinctKeys(b)
    ensures Get(a, key) == Get(b, key)
  {
    var ra := Get(a, key);
    var rb := Get(b, key);
    assert forall e :: e in a <==> e in b by {
      forall e ensures e in a <==> e in b {
        assert e in a <==> e in multiset(a);
        assert e in b <==> e in multiset(b);
      }
    }
    assert Keys(a) == Keys(b) by {
      forall x | x in Keys(a) ensures x in Keys(b) {
        var k :| 0 <= k < |a| && a[k].key == x;
        assert a[k] in b;
      }
      forall x | x in Keys(b) ensures x in Keys(a) {
        var k :| 0 <= k < |b| && b[k].key == x;
        assert b[k] in a;
      }
    }
    if ra.Some? {
      assert Entry(key, ra.value) in b;
      assert Entry(key, rb.value) in b;
      var i :| 0 <= i < |b| && b[i] == Entry(key, ra.value);
      var j :| 0 <= j < |b| && b[j] == Entry(key, rb.value);
      assert b[i].key == b[j].key;
    }
  }

  /** Shortened extensions: in any capabilities map whose chrome options
      are accepted, a non-empty `extensions` list of strings of at least ten
      characters comes out of `clean` as the list of their ten-character
      heads plus "...", in the same order. */
  lemma ShortenedExtensionsShape(capabilities: seq<Entry>, items: seq<string>)
    requires DistinctKeys(capabilities) && !ChromeOptionsRejected(capabilities)
    requires Get(capabilities, EXTENSIONS) == Some(TextList(items))
    requires |items| > 0 && forall k :: 0 <= k < |items| ==> |items[k]| >= SHORT_LENGTH
    ensures var r := Clean(capabilities);
            r.Ok? && Get(r.value, EXTENSIONS) == Some(TextList(ShortHeads(items)))
  {
    assert ShortenAll(TextList(items)).value == ShortHeads(items);
  }

  /** The ten-character heads of the strings, each followed by "...". */
  function ShortHeads(items: seq<string>): seq<string>
    requires forall k :: 0 <= k < |items| ==> |items[k]| >= SHORT_LENGTH
  {
    seq(|items|, k requires 0 <= k < |items| => items[k][..SHORT_LENGTH] + ELLIPSIS)
  }

  /** After `clean`, the chrome options' own `extensions` entry is shortened
      in the same way as the top-level one. */
  lemma CleanShortensChromeExtensions(capabilities: seq<Entry>)
    requires DistinctKeys(capabilities)
    ensures var r := Clean(capabilities);
            var options := Get(capabilities, CHROME_OPTIONS);
            r.Ok? && options.Some? ==>
              options.value.Nested? && Shortenable(Get(options.value.entries, EXTENSIONS))
              && Get(r.value, CHROME_OPTIONS).Some? && Get(r.value, CHROME_OPTIONS).value.Nested?
              && Get(Get(r.value, CHROME_OPTIONS).value.entries, EXTENSIONS)
                 == Shortened(Get(options.value.entries, EXTENSIONS))
  {
  }

  /** An empty extensions list is kept as it is. */
  lemma EmptyExtensionsKept(entries: seq<Entry>)
    requires Get(entries, EXTENSIONS) == Some(TextList([]))
    ensures ShortenExtensions(entries) == Ok(entries)
  {
  }
}
