/**
 * The java.lang.String operations the partial-URL classes rely on, over
 * strings as sequences of characters.
 */
module Strings {

  /** Java's `s.startsWith(p)`. */
  predicate StartsWith(s: string, p: string)
  {
    |p| <= |s| && s[..|p|] == p
  }

  /** Both leading parts of a three-part concatenation start it, and the last part ends it. */
  lemma ConcatParts(a: string, b: string, c: string)
    ensures StartsWith(a + b + c, a) && StartsWith(a + b + c, a + b)
    ensures (a + b + c)[|a + b + c| - |c|..] == c
  {
    assert (a + b + c)[..|a|] == a;
    assert (a + b + c)[..|a + b|] == a + b;
  }

  /** Java's `s.endsWith(c)` for a one-character suffix. */
  predicate EndsWith(s: string, c: char)
  {
    |s| > 0 && s[|s| - 1] == c
  }

  /** Lower-cases one character; only the ASCII letters A-Z change. */
  function ToLowerChar(c: char): char
  {
    if 'A' <= c <= 'Z' then (c as int + 32) as char else c
  }

  /** `toLowerCase(Locale.ROOT)` restricted to ASCII letters. */
  function ToLower(s: string): (r: string)
    ensures |r| == |s|
    ensures forall i :: 0 <= i < |s| ==> r[i] == ToLowerChar(s[i])
  {
    seq(|s|, i requires 0 <= i < |s| => ToLowerChar(s[i]))
  }

  /** A string that lower-casing leaves alone. */
  predicate IsLowerCase(s: string)
  {
    ToLower(s) == s
  }

  /** Lower-casing twice is lower-casing once. */
  lemma ToLowerIdempotent(s: string)
    ensures IsLowerCase(ToLower(s))
  {
  }

  /** Java's `equalsIgnoreCase`, for ASCII letters. */
  predicate EqualsIgnoreCase(a: string, b: string)
  {
    ToLower(a) == ToLower(b)
  }

  /** Apache Commons' `StringUtils.countMatches(s, c)`. */
  function CountChar(s: string, c: char): nat
  {
    if |s| == 0 then 0
    else CountChar(s[..|s| - 1], c) + (if s[|s| - 1] == c then 1 else 0)
  }

  /** Java's `s.lastIndexOf(c, from)`: the last position at or before `from` holding `c`, or -1. */
  function LastIndexOf(s: string, c: char, from: int): (r: int)
    ensures -1 <= r < |s| && (r == -1 || r <= from)
    ensures r >= 0 ==> s[r] == c
    ensures forall k :: r < k < |s| && k <= from ==> s[k] != c
    decreases if from < 0 then 0 else from + 1
  {
    if from < 0 || |s| == 0 then -1
    else if from >= |s| then LastIndexOf(s, c, |s| - 1)
    else if s[from] == c then from
    else LastIndexOf(s, c, from - 1)
  }

  /** Java's `s.indexOf(c, from)`: the first position at or after `from` holding `c`, or -1. */
  function IndexOf(s: string, c: char, from: int): (r: int)
    ensures r == -1 || (0 <= r < |s| && from <= r && s[r] == c)
    ensures forall k :: 0 <= k < |s| && from <= k && (r == -1 || k < r) ==> s[k] != c
    decreases |s| - from
  {
    if from < 0 then IndexOf(s, c, 0)
    else if from >= |s| then -1
    else if s[from] == c then from
    else IndexOf(s, c, from + 1)
  }

  function DigitChar(d: nat): char
    requires d < 10
  {
    "0123456789"[d]
  }

  /** The decimal rendering of a natural number, as `StringBuilder.append(int)` writes it. */
  function NatToString(n: nat): (r: string)
    ensures |r| > 0
    ensures forall i :: 0 <= i < |r| ==> '0' <= r[i] <= '9'
  {
    if n < 10 then [DigitChar(n)] else NatToString(n / 10) + [DigitChar(n % 10)]
  }

  /** The sign of Java's `a.compareTo(b)`: lexicographic, a proper prefix first. */
  function CompareStrings(a: string, b: string): (r: int)
    ensures -1 <= r <= 1
    decreases |a|
  {
    if |a| == 0 then (if |b| == 0 then 0 else -1)
    else if |b| == 0 then 1
    else if a[0] < b[0] then -1
    else if b[0] < a[0] then 1
    else CompareStrings(a[1..], b[1..])
  }

  lemma {:induction false} CompareStringsZero(a: string, b: string)
    ensures CompareStrings(a, b) == 0 <==> a == b
    decreases |a|
  {
    if |a| > 0 && |b| > 0 && a[0] == b[0] {
      CompareStringsZero(a[1..], b[1..]);
      assert a == [a[0]] + a[1..];
      assert b == [b[0]] + b[1..];
    }
  }

  lemma {:induction false} CompareStringsFlip(a: string, b: string)
    ensures CompareStrings(a, b) == -CompareStrings(b, a)
    decreases |a|
  {
    if |a| > 0 && |b| > 0 && a[0] == b[0] {
      CompareStringsFlip(a[1..], b[1..]);
    }
  }

  lemma {:induction false} CompareStringsTrans(a: string, b: string, c: string)
    requires CompareStrings(a, b) < 0 && CompareStrings(b, c) < 0
    ensures CompareStrings(a, c) < 0
    decreases |a|
  {
    if |a| > 0 && |b| > 0 && |c| > 0 && a[0] == b[0] && b[0] == c[0] {
      CompareStringsTrans(a[1..], b[1..], c[1..]);
    }
  }

  /** `pos` is where the `k`-th occurrence of `c` in `s` sits; -1 when `k` is 0. */
  predicate IsOccurrence(s: string, c: char, k: nat, pos: int)
  {
    -1 <= pos < |s| && (pos >= 0 ==> s[pos] == c) && CountChar(s[..pos + 1], c) == k
  }

  lemma CountCharStep(s: string, c: char, j: nat)
    requires j < |s|
    ensures CountChar(s[..j + 1], c) == CountChar(s[..j], c) + (if s[j] == c then 1 else 0)
  {
    assert s[..j + 1][..j] == s[..j];
  }

  /** Counting over a stretch free of `c` adds nothing. */
  lemma {:induction false} CountCharGap(s: string, c: char, i: nat, j: nat)
    requires i <= j <= |s|
    requires forall k :: i <= k < j ==> s[k] != c
    ensures CountChar(s[..j], c) == CountChar(s[..i], c)
    decreases j - i
  {
    if i < j {
      CountCharGap(s, c, i, j - 1);
      CountCharStep(s, c, j - 1);
    }
  }

  /** A longer prefix holds at least as many occurrences. */
  lemma {:induction false} CountCharMonotone(s: string, c: char, i: nat, j: nat)
    requires i <= j <= |s|
    ensures CountChar(s[..i], c) <= CountChar(s[..j], c)
    decreases j - i
  {
    if i < j {
      CountCharMonotone(s, c, i, j - 1);
      CountCharStep(s, c, j - 1);
    }
  }

  /**
   * Two prefixes of one string that both end in `c` and hold as many
   * occurrences of `c` are the same prefix.
   */
  lemma CountCharDeterminesPrefix(s: string, c: char, p: string, q: string)
    requires StartsWith(s, p) && StartsWith(s, q)
    requires EndsWith(p, c) && EndsWith(q, c)
    requires CountChar(p, c) == CountChar(q, c)
    ensures p == q
  {
    if |p| < |q| {
      CountCharGrowsToOccurrence(s, c, p, q);
    } else if |q| < |p| {
      CountCharGrowsToOccurrence(s, c, q, p);
    }
  }

  /** A longer prefix that ends in `c` holds more occurrences of `c` than a shorter one. */
  lemma CountCharGrowsToOccurrence(s: string, c: char, p: string, q: string)
    requires StartsWith(s, p) && StartsWith(s, q)
    requires EndsWith(q, c) && |p| < |q|
    ensures CountChar(p, c) < CountChar(q, c)
  {
    assert p == s[..|p|] && q == s[..|q|];
    assert s[|q| - 1] == c;
    CountCharMonotone(s, c, |p|, |q| - 1);
    CountCharStep(s, c, |q| - 1);
  }

  /** Of two prefixes of one string, the one with fewer occurrences is shorter. */
  lemma CountCharOrdersPrefixes(s: string, c: char, p: string, q: string)
    requires StartsWith(s, p) && StartsWith(s, q)
    requires CountChar(p, c) < CountChar(q, c)
    ensures |p| < |q|
  {
    if |q| <= |p| {
      CountCharMonotone(s, c, |q|, |p|);
    }
  }

  /** `lastIndexOf(c, pos - 1)` from the `k`-th occurrence finds the `(k-1)`-th. */
  lemma LastIndexOfStepsBack(s: string, c: char, k: nat, pos: int)
    requires IsOccurrence(s, c, k, pos) && k > 0
    ensures IsOccurrence(s, c, k - 1, LastIndexOf(s, c, pos - 1))
  {
    var r := LastIndexOf(s, c, pos - 1);
    CountCharGap(s, c, r + 1, pos);
    CountCharStep(s, c, pos);
  }

  /** `indexOf(c, pos + 1)` from the `k`-th occurrence finds the `(k+1)`-th, or -1 when there is none. */
  lemma IndexOfStepsForward(s: string, c: char, k: nat, pos: int)
    requires IsOccurrence(s, c, k, pos)
    ensures var r := IndexOf(s, c, pos + 1);
      if r == -1 then CountChar(s, c) == k else IsOccurrence(s, c, k + 1, r)
  {
    var r := IndexOf(s, c, pos + 1);
    if r == -1 {
      CountCharGap(s, c, pos + 1, |s|);
      assert s[..|s|] == s;
    } else {
      CountCharGap(s, c, pos + 1, r);
      CountCharStep(s, c, r);
    }
  }

  /** Of two prefixes of one string, the shorter is a prefix of the longer. */
  lemma PrefixesOfOneString(s: string, p: string, q: string)
    requires StartsWith(s, p) && StartsWith(s, q) && |q| <= |p|
    ensures StartsWith(p, q)
  {
    assert p[..|q|] == s[..|p|][..|q|];
  }
}
