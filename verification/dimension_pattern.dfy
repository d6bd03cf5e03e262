/** `Matcher.find` for the patterns `(\d+)x(\d+)` and `\d+x\d+`, where `\d`
    is an ASCII digit. A match must start a digit run, take the whole run
    (the run cannot contain the `x`), then an `x`, then the whole next run. */
module DimensionPattern {
  import opened Wrappers
  import opened Strings

  /** The end of the maximal digit run starting at `i`. */
  function RunEnd(s: string, i: nat): (j: nat)
    requires i <= |s|
    ensures i <= j <= |s|
    ensures forall k :: i <= k < j ==> IsDigit(s[k])
    ensures j == |s| || !IsDigit(s[j])
    decreases |s| - i
  {
    if i < |s| && IsDigit(s[i]) then RunEnd(s, i + 1) else i
  }

  /** A match of `(\d+)x(\d+)` starts at `i`. */
  predicate MatchesAt(s: string, i: nat) {
    i < |s| && IsDigit(s[i])
    && RunEnd(s, i) + 1 < |s| && s[RunEnd(s, i)] == 'x' && IsDigit(s[RunEnd(s, i) + 1])
  }

  /** The two groups of a match at `i`. */
  function Groups(s: string, i: nat): (g: (string, string))
    requires MatchesAt(s, i)
    ensures |g.0| > 0 && AllDigits(g.0) && |g.1| > 0 && AllDigits(g.1)
  {
    var x := RunEnd(s, i);
    (s[i..x], s[x + 1..RunEnd(s, x + 1)])
  }

  /** The leftmost match at or after `from`. */
  function FindFrom(s: string, from: nat): (r: Option<nat>)
    requires from <= |s|
    ensures r.Some? ==> from <= r.value && MatchesAt(s, r.value)
    ensures r.Some? ==> forall k :: from <= k < r.value ==> !MatchesAt(s, k)
    ensures r.None? ==> forall k :: from <= k ==> !MatchesAt(s, k)
    decreases |s| - from
  {
    if from == |s| then None
    else if MatchesAt(s, from) then Some(from)
    else FindFrom(s, from + 1)
  }

  /** `matcher.find()`: the position of the leftmost match, if any. */
  function Find(s: string): (r: Option<nat>)
    ensures r.Some? ==> MatchesAt(s, r.value) && forall k :: 0 <= k < r.value ==> !MatchesAt(s, k)
    ensures r.None? <==> forall k :: !MatchesAt(s, k)
  {
    FindFrom(s, 0)
  }

  /** A digit-free prefix, `w`, `x`, `h` and a suffix that does not go on
      with a digit: the leftmost match is right after the prefix, and its
      groups are `w` and `h`. The pattern is searched, not matched against
      the whole value. */
  lemma FindEmbedded(prefix: string, w: string, h: string, suffix: string)
    requires forall k :: 0 <= k < |prefix| ==> !IsDigit(prefix[k])
    requires |w| > 0 && AllDigits(w) && |h| > 0 && AllDigits(h)
    requires |suffix| == 0 || !IsDigit(suffix[0])
    ensures var s := prefix + w + "x" + h + suffix;
            Find(s) == Some(|prefix|) && Groups(s, |prefix|) == (w, h)
  {
    var s := prefix + w + "x" + h + suffix;
    var x := |prefix| + |w|;
    var e := x + 1 + |h|;
    EmbeddedHead(prefix, w, "x" + h + suffix);
    assert s == prefix + w + ("x" + h + suffix);
    EmbeddedTail(prefix + w, h, suffix);
    assert s == (prefix + w) + "x" + h + suffix;
    MatchAtRuns(s, |prefix|, x, e);
    LeftmostMatch(s, |prefix|);
  }

  /** A value that is nothing but `WxH` matches at its start, with the two
      runs as its groups. */
  lemma FindWhole(w: string, h: string)
    requires |w| > 0 && AllDigits(w) && |h| > 0 && AllDigits(h)
    ensures Find(w + "x" + h) == Some(0) && Groups(w + "x" + h, 0) == (w, h)
  {
    FindEmbedded("", w, h, "");
    assert "" + w + "x" + h + "" == w + "x" + h;
  }

  /** In `prefix + w + rest`, the prefix has no digit and `w` is a digit run
      found as it is. */
  lemma EmbeddedHead(prefix: string, w: string, rest: string)
    requires forall k :: 0 <= k < |prefix| ==> !IsDigit(prefix[k])
    requires AllDigits(w)
    ensures var s := prefix + w + rest;
            (forall k :: 0 <= k < |prefix| ==> !IsDigit(s[k]))
            && (forall k :: |prefix| <= k < |prefix| + |w| ==> IsDigit(s[k]))
            && s[|prefix|..|prefix| + |w|] == w
  {
    var s := prefix + w + rest;
    assert s[..|prefix|] == prefix;
    assert s[|prefix|..|prefix| + |w|] == w;
    forall k | |prefix| <= k < |prefix| + |w| ensures IsDigit(s[k]) {
      assert s[k] == w[k - |prefix|];
    }
  }

  /** In `head + "x" + h + suffix`, the `x` follows `head`, `h` is a digit
      run found as it is, and the suffix does not go on with a digit. */
  lemma EmbeddedTail(head: string, h: string, suffix: string)
    requires AllDigits(h)
    requires |suffix| == 0 || !IsDigit(suffix[0])
    ensures var s := head + "x" + h + suffix;
            var x := |head|;
            var e := x + 1 + |h|;
            e <= |s| && s[x] == 'x'
            && (forall k :: x + 1 <= k < e ==> IsDigit(s[k]))
            && (e == |s| || !IsDigit(s[e]))
            && s[x + 1..e] == h
  {
    var s := head + "x" + h + suffix;
    var x := |head|;
    var e := x + 1 + |h|;
    assert s[x + 1..e] == h;
    forall k | x + 1 <= k < e ensures IsDigit(s[k]) {
      assert s[k] == h[k - x - 1];
    }
    if e < |s| {
      assert s[e] == suffix[0];
    }
  }

  /** A digit run from `i` to `x`, an `x`, and a digit run from `x + 1` to
      `e`: a match at `i`, whose runs end at `x` and `e`. */
  lemma MatchAtRuns(s: string, i: nat, x: nat, e: nat)
    requires i < x && x + 1 < e <= |s|
    requires forall k :: i <= k < x ==> IsDigit(s[k])
    requires s[x] == 'x'
    requires forall k :: x + 1 <= k < e ==> IsDigit(s[k])
    requires e == |s| || !IsDigit(s[e])
    ensures MatchesAt(s, i) && RunEnd(s, i) == x && RunEnd(s, x + 1) == e
  {
    RunEndAt(s, i, x);
    RunEndAt(s, x + 1, e);
  }

  /** A match after a digit-free prefix is the leftmost one. */
  lemma LeftmostMatch(s: string, i: nat)
    requires MatchesAt(s, i)
    requires forall k :: 0 <= k < i ==> !IsDigit(s[k])
    ensures Find(s) == Some(i)
  {
  }

  /** The run starting at `i` ends at `j` when all of `s[i..j]` are digits
      and `s[j]` is not. */
  lemma {:induction false} RunEndAt(s: string, i: nat, j: nat)
    requires i <= j <= |s|
    requires forall k :: i <= k < j ==> IsDigit(s[k])
    requires j == |s| || !IsDigit(s[j])
    ensures RunEnd(s, i) == j
    decreases j - i
  {
    if i < j {
      RunEndAt(s, i + 1, j);
    }
  }
}
