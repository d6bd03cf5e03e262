/** String operations of `java.lang.String`, `Integer` and JavaScript that
    the modelled code relies on, over `string` = `seq<char>`. */
module Strings {
  import opened Wrappers

  predicate IsDigit(c: char) {
    '0' <= c <= '9'
  }

  predicate AllDigits(s: string) {
    forall i :: 0 <= i < |s| ==> IsDigit(s[i])
  }

  function DigitValue(c: char): nat
    requires IsDigit(c)
  {
    (c as int - '0' as int) as nat
  }

  function DigitChar(d: nat): (c: char)
    requires d < 10
    ensures IsDigit(c) && DigitValue(c) == d
  {
    ('0' as int + d) as char
  }

  /** The number a run of decimal digits denotes (what `Integer.parseInt`
      computes before its range check). */
  function DigitsToNat(s: string): nat
    requires AllDigits(s)
  {
    if |s| == 0 then 0 else DigitsToNat(s[..|s| - 1]) * 10 + DigitValue(s[|s| - 1])
  }

  /** Decimal rendering of a natural number without leading zeros, as
      `Integer.toString` and JavaScript string concatenation produce it. */
  function NatToString(n: nat): (s: string)
    ensures |s| >= 1 && AllDigits(s)
    ensures DigitsToNat(s) == n
    ensures s[0] == '0' ==> n == 0
    decreases n
  {
    if n < 10 then [DigitChar(n)]
    else
      var prefix := NatToString(n / 10);
      var s := prefix + [DigitChar(n % 10)];
      assert s[..|s| - 1] == prefix;
      s
  }

  /** `Integer.toString` for any (already wrapped) integer: a minus sign
      for negative values, then the digits of the magnitude. */
  function IntToString(i: int): (s: string)
    ensures |s| >= 1
    ensures s[0] == '-' <==> i < 0
    ensures forall k :: 0 <= k < |s| ==> s[k] == '-' || IsDigit(s[k])
  {
    if i < 0 then "-" + NatToString(-i) else NatToString(i)
  }

  /** Reads an optionally negative decimal: a '-' followed by at least one
      digit, or at least one digit. */
  function ParseDecimal(s: string): Option<int> {
    if |s| > 1 && s[0] == '-' && AllDigits(s[1..]) then Some(0 - DigitsToNat(s[1..]) as int)
    else if |s| > 0 && AllDigits(s) then Some(DigitsToNat(s))
    else None
  }

  /** What `Integer.toString` prints reads back as the same number. */
  lemma IntToStringRoundTrip(i: int)
    ensures ParseDecimal(IntToString(i)) == Some(i)
  {
    if i < 0 {
      var digits := NatToString(-i);
      assert IntToString(i)[1..] == digits;
    }
  }

  /** `String.indexOf(char)`: the first position of `c`, or -1. */
  function IndexOf(s: string, c: char): (i: int)
    ensures -1 <= i < |s|
    ensures i == -1 <==> c !in s
    ensures i >= 0 ==> s[i] == c && c !in s[..i]
  {
    if |s| == 0 then -1
    else if s[0] == c then 0
    else
      var j := IndexOf(s[1..], c);
      assert s[1..][..if j >= 0 then j else 0] == s[1..if j >= 0 then j + 1 else 1];
      if j == -1 then -1 else j + 1
  }

  /** When `c` does not occur in `p`, `p + [c] + n` splits at its first
      `c` back into `p` and `n`. */
  lemma SplitAtFirst(p: string, c: char, n: string)
    requires c !in p
    ensures IndexOf(p + [c] + n, c) == |p|
    ensures (p + [c] + n)[..|p|] == p && (p + [c] + n)[|p| + 1..] == n
  {
    var s := p + [c] + n;
    assert s[|p|] == c;
    assert forall k :: 0 <= k < |p| ==> s[k] == p[k] && p[k] in p;
    assert s[..|p|] == p;
  }

  predicate StartsWith(s: string, prefix: string) {
    |prefix| <= |s| && s[..|prefix|] == prefix
  }

  /** `p` occurs in `s` starting at index `i`. */
  predicate OccursAt(s: string, p: string, i: int) {
    0 <= i && i + |p| <= |s| && s[i..i + |p|] == p
  }

  /** `s.contains(p)`. */
  predicate Contains(s: string, p: string) {
    exists i :: 0 <= i <= |s| - |p| && OccursAt(s, p, i)
  }

  /** `s.replace(target, replacement)` for a non-empty target: every
      occurrence found scanning left to right is replaced, and scanning
      resumes after the replaced text, so occurrences never overlap. */
  function ReplaceAll(s: string, target: string, replacement: string): string
    requires |target| > 0
    decreases |s|
  {
    if |s| < |target| then s
    else if s[..|target|] == target then replacement + ReplaceAll(s[|target|..], target, replacement)
    else [s[0]] + ReplaceAll(s[1..], target, replacement)
  }

  /** A string in which the target does not occur is left unchanged. */
  lemma {:induction false} ReplaceAllAbsent(s: string, target: string, replacement: string)
    requires |target| > 0
    requires !Contains(s, target)
    ensures ReplaceAll(s, target, replacement) == s
    decreases |s|
  {
    if |s| < |target| {
    } else {
      assert !OccursAt(s, target, 0);
      assert s[..|target|] != target;
      if Contains(s[1..], target) {
        var i :| 0 <= i <= |s[1..]| - |target| && OccursAt(s[1..], target, i);
        assert s[1..][i..i + |target|] == s[i + 1..i + 1 + |target|];
        assert OccursAt(s, target, i + 1);
        assert false;
      }
      ReplaceAllAbsent(s[1..], target, replacement);
    }
  }

  /** Replacing with a text that does not contain `c` removes every `c`
      that only occurred inside targets; with `c` absent from the source
      string too, the result contains no `c`. */
  lemma {:induction false} ReplaceAllKeepsCharAbsent(s: string, target: string, replacement: string, c: char)
    requires |target| > 0
    requires c !in s && c !in replacement
    ensures c !in ReplaceAll(s, target, replacement)
    decreases |s|
  {
    if |s| < |target| {
    } else if s[..|target|] == target {
      ReplaceAllKeepsCharAbsent(s[|target|..], target, replacement, c);
    } else {
      ReplaceAllKeepsCharAbsent(s[1..], target, replacement, c);
    }
  }

  /** When the first occurrence of the target starts right after `prefix`,
      that occurrence is substituted and scanning resumes behind it. */
  lemma {:induction false} ReplaceFirst(prefix: string, target: string, rest: string, replacement: string)
    requires |target| > 0
    requires forall i :: 0 <= i < |prefix| ==> !OccursAt(prefix + target, target, i)
    ensures ReplaceAll(prefix + target + rest, target, replacement)
            == prefix + replacement + ReplaceAll(rest, target, replacement)
    decreases |prefix|
  {
    var s := prefix + target + rest;
    if |prefix| == 0 {
      assert s == target + rest;
      ReplaceAtStart(target, rest, replacement);
    } else {
      var tail := prefix[1..];
      DropFirstNoOccurrence(prefix, target);
      assert s[..|target|] == (prefix + target)[..|target|];
      assert s == [prefix[0]] + (tail + target + rest);
      ReplaceAllSkip(prefix[0], tail + target + rest, target, replacement);
      ReplaceFirst(tail, target, rest, replacement);
      assert [prefix[0]] + (tail + replacement + ReplaceAll(rest, target, replacement))
             == prefix + replacement + ReplaceAll(rest, target, replacement);
    }
  }

  /** A string that does not start with the target keeps its first
      character, and scanning goes on behind it. */
  lemma ReplaceAllSkip(c: char, t: string, target: string, replacement: string)
    requires |target| > 0 && |t| + 1 >= |target| && ([c] + t)[..|target|] != target
    ensures ReplaceAll([c] + t, target, replacement) == [c] + ReplaceAll(t, target, replacement)
  {
    assert ([c] + t)[1..] == t;
  }

  /** No occurrence before the target in `prefix + target` stays so after
      dropping the first character, and the string does not start with the
      target. */
  lemma DropFirstNoOccurrence(prefix: string, target: string)
    requires |target| > 0 && |prefix| > 0
    requires forall i :: 0 <= i < |prefix| ==> !OccursAt(prefix + target, target, i)
    ensures forall i :: 0 <= i < |prefix| - 1 ==> !OccursAt(prefix[1..] + target, target, i)
    ensures (prefix + target)[..|target|] != target
  {
    var tail := prefix[1..];
    assert !OccursAt(prefix + target, target, 0);
    forall i | 0 <= i < |tail| ensures !OccursAt(tail + target, target, i) {
      assert (tail + target)[i..i + |target|] == (prefix + target)[i + 1..i + 1 + |target|];
      assert !OccursAt(prefix + target, target, i + 1);
    }
  }

  /** A string that starts with the target has that prefix substituted. */
  lemma ReplaceAtStart(target: string, rest: string, replacement: string)
    requires |target| > 0
    ensures ReplaceAll(target + rest, target, replacement) == replacement + ReplaceAll(rest, target, replacement)
  {
    assert (target + rest)[..|target|] == target;
    assert (target + rest)[|target|..] == rest;
  }

  /** Replacing a target that occurs exactly once, between a prefix and a
      suffix that do not contain it, substitutes exactly that occurrence. */
  lemma ReplaceSingle(prefix: string, target: string, suffix: string, replacement: string)
    requires |target| > 0
    requires forall i :: 0 <= i < |prefix| ==> !OccursAt(prefix + target, target, i)
    requires !Contains(suffix, target)
    ensures ReplaceAll(prefix + target + suffix, target, replacement) == prefix + replacement + suffix
  {
    ReplaceFirst(prefix, target, suffix, replacement);
    ReplaceAllAbsent(suffix, target, replacement);
  }

  /** A string without the target's first character contains no
      occurrence of the target. */
  lemma FirstCharAbsent(s: string, target: string)
    requires |target| > 0 && target[0] !in s
    ensures !Contains(s, target)
    ensures forall i :: 0 <= i < |s| ==> !OccursAt(s + target, target, i)
  {
    forall i | 0 <= i < |s| ensures !OccursAt(s + target, target, i) {
      assert (s + target)[i] == s[i];
    }
    forall i | 0 <= i <= |s| - |target| ensures !OccursAt(s, target, i) {
      assert s[i] in s;
    }
  }

  /** No occurrence is possible where the target's first character is
      never followed by its second. */
  lemma SecondCharRulesOut(s: string, target: string)
    requires |target| >= 2
    requires forall i :: 0 <= i < |s| - 1 && s[i] == target[0] ==> s[i + 1] != target[1]
    ensures !Contains(s, target)
  {
    forall i | 0 <= i <= |s| - |target| ensures !OccursAt(s, target, i) {
      assert s[i..i + |target|][0] == s[i];
      assert s[i..i + |target|][1] == s[i + 1];
    }
  }

  /** `replace` of a target whose first character occurs neither before nor
      after its single occurrence substitutes that occurrence only. */
  lemma ReplaceFirstCharAbsent(prefix: string, target: string, suffix: string, replacement: string)
    requires |target| > 0 && target[0] !in prefix && target[0] !in suffix
    ensures ReplaceAll(prefix + target + suffix, target, replacement) == prefix + replacement + suffix
  {
    FirstCharAbsent(prefix, target);
    FirstCharAbsent(suffix, target);
    ReplaceSingle(prefix, target, suffix, replacement);
  }

  /** Parts joined by the target, none of which holds the target's first
      character, come out joined by the replacement: every occurrence is
      replaced, not only the first or a leading one. */
  lemma {:induction false} ReplaceSeparators(parts: seq<string>, target: string, replacement: string)
    requires |target| > 0
    requires forall k :: 0 <= k < |parts| ==> target[0] !in parts[k]
    ensures ReplaceAll(Join(target, parts), target, replacement) == Join(replacement, parts)
    decreases |parts|
  {
    if |parts| == 1 {
      FirstCharAbsent(parts[0], target);
      ReplaceAllAbsent(parts[0], target, replacement);
    } else if |parts| > 1 {
      var rest := Join(target, parts[1..]);
      assert Join(target, parts) == parts[0] + target + rest;
      FirstCharAbsent(parts[0], target);
      ReplaceFirst(parts[0], target, rest, replacement);
      ReplaceSeparators(parts[1..], target, replacement);
    }
  }

  /** Every character of `s` equal to `from` becomes `to` (Java's
      `replaceAll` with a single-character pattern, or `replace(char, char)`). */
  function ReplaceChar(s: string, from: char, to: char): (r: string)
    ensures |r| == |s|
    ensures forall i :: 0 <= i < |s| ==> r[i] == (if s[i] == from then to else s[i])
  {
    seq(|s|, i requires 0 <= i < |s| => if s[i] == from then to else s[i])
  }

  /** Replacing a character that does not occur changes nothing. */
  lemma ReplaceCharAbsent(s: string, from: char, to: char)
    requires from !in s
    ensures ReplaceChar(s, from, to) == s
  {
    forall i | 0 <= i < |s| ensures ReplaceChar(s, from, to)[i] == s[i] {
      assert s[i] in s;
    }
  }

  /** `String.join(sep, xs)` and JavaScript's `xs.join(sep)`. */
  function Join(sep: string, xs: seq<string>): string
  {
    if |xs| == 0 then ""
    else if |xs| == 1 then xs[0]
    else xs[0] + sep + Join(sep, xs[1..])
  }

  /** The joined text has the parts and the separators between them, and
      nothing else. */
  lemma {:induction false} JoinLength(sep: string, xs: seq<string>)
    requires |xs| > 0
    ensures |Join(sep, xs)| == SumLengths(xs) + (|xs| - 1) * |sep|
  {
    if |xs| > 1 {
      JoinLength(sep, xs[1..]);
    }
  }

  function SumLengths(xs: seq<string>): nat
  {
    if |xs| == 0 then 0 else |xs[0]| + SumLengths(xs[1..])
  }

  /** ASCII lower-casing of one character. */
  function ToLowerAscii(c: char): char
  {
    if 'A' <= c <= 'Z' then (c as int + 32) as char else c
  }

  /** `a.equalsIgnoreCase(b)` restricted to ASCII case folding. */
  predicate EqualsIgnoreCase(a: string, b: string) {
    |a| == |b| && forall i :: 0 <= i < |a| ==> ToLowerAscii(a[i]) == ToLowerAscii(b[i])
  }
}
