/**
 * String operations of the Kotlin, Java, Swift and TypeScript standard libraries the
 * source relies on: prefix tests, `split` on a literal delimiter (with and without a
 * limit), `joinToString`, trimming with the platforms' whitespace classes, character
 * removal and decimal rendering of integers.
 */
module Text {
  import opened Wrappers

  predicate StartsWith(s: string, prefix: string) {
    |prefix| <= |s| && s[..|prefix|] == prefix
  }

  predicate EndsWith(s: string, suffix: string) {
    |suffix| <= |s| && s[|s| - |suffix|..] == suffix
  }

  /** `d` occurs in `s` starting at index `i`. */
  predicate OccursAt(s: string, d: string, i: nat) {
    i + |d| <= |s| && s[i..i + |d|] == d
  }

  predicate Contains(s: string, d: string) {
    exists i: nat :: i <= |s| && OccursAt(s, d, i)
  }

  /** The first index at or after `from` where `d` occurs (`indexOf(d, from)`). */
  function FindFrom(s: string, d: string, from: nat): (r: Option<nat>)
    requires |d| > 0
    ensures r.Some? ==> from <= r.value && OccursAt(s, d, r.value)
    ensures r.Some? ==> forall k: nat :: from <= k < r.value ==> !OccursAt(s, d, k)
    ensures r.None? ==> forall k: nat :: from <= k ==> !OccursAt(s, d, k)
    decreases |s| - from
  {
    if from + |d| > |s| then None
    else if s[from..from + |d|] == d then Some(from)
    else FindFrom(s, d, from + 1)
  }

  function Find(s: string, d: string): (r: Option<nat>)
    requires |d| > 0
    ensures r.Some? <==> Contains(s, d)
    ensures r.Some? ==> OccursAt(s, d, r.value) && forall k: nat :: k < r.value ==> !OccursAt(s, d, k)
  {
    FindFrom(s, d, 0)
  }

  /** `s.split(d)` on a literal delimiter: left to right, non-overlapping, empty parts kept. */
  function Split(s: string, d: string): (parts: seq<string>)
    requires |d| > 0
    ensures |parts| >= 1
    decreases |s|
  {
    match Find(s, d)
    case None => [s]
    case Some(i) => [s[..i]] + Split(s[i + |d|..], d)
  }

  /** At the delimiter's first occurrence a split takes off its first part. */
  lemma SplitAtFirst(s: string, d: string)
    requires |d| > 0 && Find(s, d).Some?
    ensures var i := Find(s, d).value;
      i + |d| <= |s| && Split(s, d) == [s[..i]] + Split(s[i + |d|..], d)
  {
  }

  /** `d` occurs in `x + d + rest` right after `x`. */
  lemma OccursAfter(x: string, d: string, rest: string)
    ensures OccursAt(x + d + rest, d, |x|)
  {
    assert (x + d + rest)[|x|..|x| + |d|] == d;
  }

  /** A string that does not contain the delimiter splits into itself alone. */
  lemma SplitWithout(s: string, d: string)
    requires |d| > 0 && !Contains(s, d)
    ensures Split(s, d) == [s]
  {
  }

  /** `s.split(d, limit = 2)`: the text before the first `d` and, if `d` occurs, everything after it. */
  function SplitOnce(s: string, d: string): (parts: seq<string>)
    requires |d| > 0
    ensures 1 <= |parts| <= 2
    ensures |parts| == 1 <==> !Contains(s, d)
    ensures |parts| == 2 ==> s == parts[0] + d + parts[1] && !Contains(parts[0], d)
  {
    match Find(s, d)
    case None => [s]
    case Some(i) =>
      assert s == s[..i] + d + s[i + |d|..];
      NoEarlierOccurrence(s, d, i);
      [s[..i], s[i + |d|..]]
  }

  /** `parts.joinToString(sep)`. */
  function Join(parts: seq<string>, sep: string): string
  {
    if |parts| == 0 then ""
    else if |parts| == 1 then parts[0]
    else parts[0] + sep + Join(parts[1..], sep)
  }

  /** The prefix before the first occurrence of `d` does not itself contain `d`. */
  lemma NoEarlierOccurrence(s: string, d: string, i: nat)
    requires |d| > 0 && i <= |s|
    requires forall k: nat :: k < i ==> !OccursAt(s, d, k)
    ensures !Contains(s[..i], d)
  {
    forall k: nat | OccursAt(s[..i], d, k)
      ensures false
    {
      assert s[..i][k..k + |d|] == s[k..k + |d|];
      assert OccursAt(s, d, k);
    }
  }

  lemma JoinCons(a: string, parts: seq<string>, sep: string)
    requires |parts| >= 1
    ensures Join([a] + parts, sep) == a + sep + Join(parts, sep)
  {
    assert ([a] + parts)[1..] == parts;
  }

  /** Splitting and joining again with the same delimiter gives back the original string. */
  lemma {:induction false} JoinSplit(s: string, d: string)
    requires |d| > 0
    ensures Join(Split(s, d), d) == s
    decreases |s|
  {
    var f := Find(s, d);
    if f.Some? {
      var i := f.value;
      var rest := s[i + |d|..];
      assert Split(s, d) == [s[..i]] + Split(rest, d);
      JoinSplit(rest, d);
      JoinCons(s[..i], Split(rest, d), d);
      SliceThree(s, i, i + |d|);
    }
  }

  /** A string is its three slices at `i` and `j`, concatenated. */
  lemma SliceThree(s: string, i: nat, j: nat)
    requires i <= j <= |s|
    ensures s == s[..i] + s[i..j] + s[j..]
  {
  }

  /** The parts of a split never contain the delimiter. */
  lemma {:induction false} SplitPartsFree(s: string, d: string, j: nat)
    requires |d| > 0 && j < |Split(s, d)|
    ensures !Contains(Split(s, d)[j], d)
    decreases |s|
  {
    match Find(s, d)
    case None =>
      assert Split(s, d) == [s];
    case Some(i) =>
      var rest := s[i + |d|..];
      var parts, tail := Split(s, d), Split(rest, d);
      assert parts == [s[..i]] + tail;
      if j == 0 {
        assert forall k: nat :: k < i ==> !OccursAt(s, d, k);
        NoEarlierOccurrence(s, d, i);
        assert parts[0] == s[..i];
      } else {
        ConsIndex(s[..i], tail, j);
        SplitPartsFree(rest, d, j - 1);
      }
  }

  /**
   * A string built as `a + d + b`, where `d` first occurs right after `a`, splits
   * into `a` followed by the parts of `b`.
   */
  lemma SplitAfter(a: string, d: string, b: string)
    requires |d| > 0
    requires Find(a + d + b, d) == Some(|a|)
    ensures Split(a + d + b, d) == [a] + Split(b, d)
  {
    var s := a + d + b;
    assert s[..|a|] == a;
    assert s[|a| + |d|..] == b;
  }

  /** If no character of `a` is the first character of `d`, then `d` first occurs in `a + d + b` right after `a`. */
  lemma FirstOccurrenceAfter(a: string, d: string, b: string)
    requires |d| > 0 && d[0] !in a
    ensures Find(a + d + b, d) == Some(|a|)
  {
    var s := a + d + b;
    assert OccursAt(s, d, |a|) by { assert s[|a|..|a| + |d|] == d; }
    forall k: nat | k < |a| ensures !OccursAt(s, d, k) {
      assert s[k] == a[k] && s[k] != d[0];
      if k + |d| <= |s| {
        assert s[k..k + |d|][0] == s[k];
      }
    }
  }

  /** Joining parts free of the delimiter's first character and splitting again gives back the parts. */
  lemma {:induction false} SplitJoin(parts: seq<string>, d: string)
    requires |d| > 0 && |parts| >= 1
    requires forall i :: 0 <= i < |parts| ==> d[0] !in parts[i]
    ensures Split(Join(parts, d), d) == parts
    decreases |parts|
  {
    if |parts| == 1 {
      NoLeadCharNoOccurrence(parts[0], d);
      SplitWithout(parts[0], d);
    } else {
      var rest := Join(parts[1..], d);
      assert Join(parts, d) == parts[0] + d + rest;
      FirstOccurrenceAfter(parts[0], d, rest);
      SplitAfter(parts[0], d, rest);
      SplitJoin(parts[1..], d);
      assert parts == [parts[0]] + parts[1..];
    }
  }

  /** A string without the first character of `d` does not contain `d`. */
  lemma NoLeadCharNoOccurrence(s: string, d: string)
    requires |d| > 0 && d[0] !in s
    ensures !Contains(s, d)
  {
    forall k: nat | k + |d| <= |s| ensures !OccursAt(s, d, k) {
      assert s[k..k + |d|][0] == s[k] && s[k] in s;
    }
  }

  /** Index `j > 0` of `[x] + tail` is index `j - 1` of `tail`. */
  lemma ConsIndex<X>(x: X, tail: seq<X>, j: nat)
    requires 0 < j <= |tail|
    ensures ([x] + tail)[j] == tail[j - 1]
  {
  }

  /** Every character of `s` except those equal to `c`, in order (Kotlin/Java `replace(c, "")`). */
  function Remove(s: string, c: char): (r: string)
    ensures c !in r
    ensures |r| <= |s|
    ensures forall x :: x in r ==> x in s
    ensures c !in s ==> r == s
  {
    if |s| == 0 then ""
    else (if s[0] == c then "" else [s[0]]) + Remove(s[1..], c)
  }

  /** Removing all occurrences distributes over concatenation. */
  lemma {:induction false} RemoveConcat(a: string, b: string, c: char)
    ensures Remove(a + b, c) == Remove(a, c) + Remove(b, c)
  {
    if |a| > 0 {
      var head := if a[0] == c then "" else [a[0]];
      assert (a + b)[0] == a[0];
      assert (a + b)[1..] == a[1..] + b;
      assert Remove(a + b, c) == head + Remove(a[1..] + b, c);
      RemoveConcat(a[1..], b, c);
      assert Remove(a, c) == head + Remove(a[1..], c);
    } else {
      assert a + b == b;
    }
  }

  // Whitespace classes.

  /** Unicode space separators (general category Zs). */
  predicate IsSpaceSeparator(c: char) {
    c == ' ' || c == '\U{00A0}' || c == '\U{1680}' || ('\U{2000}' <= c <= '\U{200A}')
    || c == '\U{202F}' || c == '\U{205F}' || c == '\U{3000}'
  }

  /** Swift's `CharacterSet.whitespaces`: the space separators and the tab. */
  predicate IsSwiftWhitespace(c: char) {
    IsSpaceSeparator(c) || c == '\t'
  }

  /** Swift's `CharacterSet.whitespacesAndNewlines`: also U+000A to U+000D, U+0085 and the line and paragraph separators. */
  predicate IsSwiftWhitespaceOrNewline(c: char) {
    IsSwiftWhitespace(c) || ('\n' <= c <= '\r') || c == '\U{0085}' || c == '\U{2028}' || c == '\U{2029}'
  }

  /** Kotlin's `Char.isWhitespace()`: Java's `isWhitespace` or `isSpaceChar`. */
  predicate IsKotlinWhitespace(c: char) {
    IsSpaceSeparator(c) || c == '\U{2028}' || c == '\U{2029}' || ('\t' <= c <= '\r') || ('\U{001C}' <= c <= '\U{001F}')
  }

  /** The characters Java's `String.trim()` removes: every code point up to U+0020. */
  predicate IsJavaTrimmed(c: char) {
    c <= ' '
  }

  /** Kotlin's `isBlank()`. */
  predicate IsBlank(s: string) {
    forall c :: c in s ==> IsKotlinWhitespace(c)
  }

  /** The first index at or after `i` whose character is not in the class `ws`, or `|s|`. */
  function SkipForward(s: string, ws: char -> bool, i: nat): (j: nat)
    requires i <= |s|
    ensures i <= j <= |s|
    ensures j < |s| ==> !ws(s[j])
    ensures forall k :: i <= k < j ==> ws(s[k])
    decreases |s| - i
  {
    if i < |s| && ws(s[i]) then SkipForward(s, ws, i + 1) else i
  }

  /** The least `e <= j` such that every character in `s[e..j]` is in the class `ws`. */
  function SkipBackward(s: string, ws: char -> bool, j: nat): (e: nat)
    requires j <= |s|
    ensures e <= j
    ensures e > 0 ==> !ws(s[e - 1])
    ensures forall k :: e <= k < j ==> ws(s[k])
  {
    if j > 0 && ws(s[j - 1]) then SkipBackward(s, ws, j - 1) else j
  }

  /** Removes leading and trailing characters of the class `ws`. */
  function Trim(s: string, ws: char -> bool): (r: string)
    ensures |r| <= |s|
    ensures |r| > 0 ==> !ws(r[0]) && !ws(r[|r| - 1])
    ensures r == "" <==> forall c :: c in s ==> ws(c)
    ensures exists a: nat, b: nat :: a <= b <= |s| && r == s[a..b]
  {
    var a := SkipForward(s, ws, 0);
    var b := SkipBackward(s, ws, |s|);
    if b <= a then
      assert a == |s|;
      assert forall c :: c in s ==> ws(c) by {
        forall c | c in s ensures ws(c) {
          var k :| 0 <= k < |s| && s[k] == c;
        }
      }
      assert s[|s|..|s|] == "";
      s[|s|..|s|]
    else
      assert !ws(s[a]) && s[a] in s;
      s[a..b]
  }

  /** Trimming twice is the same as trimming once. */
  lemma TrimIdempotent(s: string, ws: char -> bool)
    ensures Trim(Trim(s, ws), ws) == Trim(s, ws)
  {
    var t := Trim(s, ws);
    if |t| > 0 {
      assert SkipForward(t, ws, 0) == 0;
      assert SkipBackward(t, ws, |t|) == |t|;
    }
  }

  // Decimal rendering.

  function DigitChar(d: nat): (c: char)
    requires d < 10
    ensures '0' <= c <= '9'
  {
    ('0' as int + d) as char
  }

  /** The decimal digits of `n` without leading zeros (`n.toString()` for a non-negative number). */
  function NatToString(n: nat): (r: string)
    ensures |r| >= 1
    ensures forall c :: c in r ==> '0' <= c <= '9'
    decreases n
  {
    if n < 10 then [DigitChar(n)] else NatToString(n / 10) + [DigitChar(n % 10)]
  }

  /** `n.toString()`: a minus sign for negative numbers. */
  function IntToString(n: int): (r: string)
    ensures |r| >= 1
    ensures n >= 0 ==> r == NatToString(n)
    ensures n < 0 ==> r == "-" + NatToString(-n)
  {
    if n >= 0 then NatToString(n) else "-" + NatToString(-n)
  }

  // ASCII case mapping (HTTP header names and the enumeration names compared here are ASCII).

  function LowerChar(c: char): (r: char)
    ensures 'A' <= c <= 'Z' ==> r as int == c as int + 32
    ensures !('A' <= c <= 'Z') ==> r == c
  {
    if 'A' <= c <= 'Z' then (c as int + 32) as char else c
  }

  /** Equal up to the case of ASCII letters, character by character (`equalsIgnoreCase` on header names). */
  predicate EqualsIgnoreCase(a: string, b: string) {
    |a| == |b| && forall i :: 0 <= i < |a| ==> LowerChar(a[i]) == LowerChar(b[i])
  }

  /** Different numbers render differently, so a rendered number identifies the number. */
  lemma {:induction false} NatToStringInjective(a: nat, b: nat)
    requires NatToString(a) == NatToString(b)
    ensures a == b
    decreases a
  {
    DigitCount(a);
    DigitCount(b);
    if a >= 10 && b >= 10 {
      var sa, sb := NatToString(a), NatToString(b);
      assert sa[..|sa| - 1] == NatToString(a / 10);
      assert sb[..|sb| - 1] == NatToString(b / 10);
      NatToStringInjective(a / 10, b / 10);
      DigitCharInjective(a % 10, b % 10);
    } else if a < 10 && b < 10 {
      DigitCharInjective(a, b);
    }
  }

  lemma DigitCount(n: nat)
    ensures n < 10 <==> |NatToString(n)| == 1
  {
  }

  lemma DigitCharInjective(x: nat, y: nat)
    requires x < 10 && y < 10 && DigitChar(x) == DigitChar(y)
    ensures x == y
  {
  }

  lemma IntToStringInjective(a: int, b: int)
    requires IntToString(a) == IntToString(b)
    ensures a == b
  {
    var sa, sb := IntToString(a), IntToString(b);
    if a >= 0 {
      assert sa[0] in NatToString(a);
    } else {
      assert sa[0] == '-';
    }
    if b >= 0 {
      assert sb[0] in NatToString(b);
    } else {
      assert sb[0] == '-';
    }
    if a >= 0 && b >= 0 {
      NatToStringInjective(a, b);
    } else if a < 0 && b < 0 {
      assert sa[1..] == NatToString(-a) && sb[1..] == NatToString(-b);
      NatToStringInjective(-a, -b);
    }
  }
}
