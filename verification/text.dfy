/**
 * The Kotlin string operations the generator relies on, defined over
 * `seq<char>` with the same edge cases as the Kotlin standard library:
 * a missing delimiter makes `substringBefore` / `substringAfterLast` return
 * the whole string, `split` takes the leftmost non-overlapping matches, and
 * `trim` strips Kotlin's `isWhitespace` characters.
 */
module Text {

  predicate IsDigit(c: char) { '0' <= c <= '9' }
  predicate IsLowerAscii(c: char) { 'a' <= c <= 'z' }
  predicate IsUpperAscii(c: char) { 'A' <= c <= 'Z' }

  function LowerChar(c: char): char {
    if IsUpperAscii(c) then (c as int + 32) as char else c
  }

  function UpperChar(c: char): char {
    if IsLowerAscii(c) then (c as int - 32) as char else c
  }

  /** `lowercase()` on the ASCII names the generator feeds it. */
  function Lower(s: string): (r: string)
    ensures |r| == |s|
    ensures forall i | 0 <= i < |s| :: r[i] == LowerChar(s[i])
  {
    if |s| == 0 then "" else [LowerChar(s[0])] + Lower(s[1..])
  }

  /** `replaceFirstChar { it.uppercase() }` */
  function Capitalize(s: string): (r: string)
    ensures |r| == |s|
    ensures |s| > 0 ==> r[0] == UpperChar(s[0]) && r[1..] == s[1..]
  {
    if |s| == 0 then "" else [UpperChar(s[0])] + s[1..]
  }

  /** `replace(a, b)` on characters. */
  function ReplaceChar(s: string, a: char, b: char): (r: string)
    ensures |r| == |s|
    ensures forall i | 0 <= i < |s| :: r[i] == (if s[i] == a then b else s[i])
  {
    if |s| == 0 then "" else [if s[0] == a then b else s[0]] + ReplaceChar(s[1..], a, b)
  }

  /** `replace("a", rep)` for a one-character pattern. */
  function ReplaceBy(s: string, a: char, rep: string): (r: string)
    ensures a !in rep ==> a !in r
    ensures a !in s ==> r == s
  {
    if |s| == 0 then "" else (if s[0] == a then rep else [s[0]]) + ReplaceBy(s[1..], a, rep)
  }

  lemma ReplaceByAppend(s: string, t: string, a: char, rep: string)
    ensures ReplaceBy(s + t, a, rep) == ReplaceBy(s, a, rep) + ReplaceBy(t, a, rep)
  {
    if |s| > 0 {
      assert (s + t)[1..] == s[1..] + t;
      ReplaceByAppend(s[1..], t, a, rep);
    } else {
      assert s + t == t;
    }
  }

  function Count(s: string, c: char): (n: nat)
    ensures n <= |s|
    ensures n == 0 <==> c !in s
  {
    if |s| == 0 then 0 else (if s[0] == c then 1 else 0) + Count(s[1..], c)
  }

  lemma {:induction false} CountAppend(s: string, t: string, c: char)
    ensures Count(s + t, c) == Count(s, c) + Count(t, c)
  {
    if |s| == 0 {
      assert s + t == t;
    } else {
      assert (s + t)[0] == s[0];
      assert (s + t)[1..] == s[1..] + t;
      CountAppend(s[1..], t, c);
    }
  }

  /** Concatenation of a sequence of strings. */
  function Concat(parts: seq<string>): (r: string)
  {
    if |parts| == 0 then "" else parts[0] + Concat(parts[1..])
  }

  lemma ConcatAppend(a: seq<string>, b: seq<string>)
    ensures Concat(a + b) == Concat(a) + Concat(b)
  {
    if |a| > 0 {
      assert (a + b)[1..] == a[1..] + b;
      ConcatAppend(a[1..], b);
    } else {
      assert a + b == b;
    }
  }

  lemma CountConcat(parts: seq<string>, c: char)
    ensures Count(Concat(parts), c) == SumCounts(parts, c)
  {
    if |parts| > 0 {
      CountAppend(parts[0], Concat(parts[1..]), c);
      CountConcat(parts[1..], c);
    }
  }

  function SumCounts(parts: seq<string>, c: char): nat
  {
    if |parts| == 0 then 0 else Count(parts[0], c) + SumCounts(parts[1..], c)
  }

  /** `joinToString(sep)` */
  function Join(parts: seq<string>, sep: string): (r: string)
    ensures |parts| == 1 ==> r == parts[0]
  {
    if |parts| == 0 then ""
    else if |parts| == 1 then parts[0]
    else parts[0] + sep + Join(parts[1..], sep)
  }

  lemma {:induction false} JoinAppend(a: seq<string>, b: seq<string>, sep: string)
    requires |a| > 0 && |b| > 0
    ensures Join(a + b, sep) == Join(a, sep) + sep + Join(b, sep)
  {
    if |a| == 1 {
      assert (a + b)[1..] == b;
    } else {
      assert (a + b)[1..] == a[1..] + b;
      JoinAppend(a[1..], b, sep);
      Assoc5(a[0], sep, Join(a[1..], sep), sep, Join(b, sep));
    }
  }

  lemma Assoc5(a: string, b: string, c: string, d: string, e: string)
    ensures a + b + (c + d + e) == a + b + c + d + e
  {
  }

  /** A group of parts joined on its own, or nothing when the group is empty. */
  function Grouped(g: seq<string>, sep: string): (r: seq<string>)
    ensures |r| <= 1 && (|r| == 0 <==> |g| == 0)
  {
    if |g| == 0 then [] else [Join(g, sep)]
  }

  /** Joining a pre-joined group with its neighbours is joining the flat sequence. */
  lemma JoinFlattenGroup(x: seq<string>, g: seq<string>, y: seq<string>, sep: string)
    ensures Join(x + Grouped(g, sep) + y, sep) == Join(x + g + y, sep)
  {
    if |g| == 0 {
      assert x + Grouped(g, sep) + y == x + g + y;
    } else {
      var jg := [Join(g, sep)];
      assert Grouped(g, sep) == jg;
      if |y| > 0 {
        JoinAppend(jg, y, sep);
        JoinAppend(g, y, sep);
      } else {
        assert jg + y == jg && g + y == g;
      }
      assert Join(jg + y, sep) == Join(g + y, sep);
      if |x| > 0 {
        assert x + jg + y == x + (jg + y);
        assert x + g + y == x + (g + y);
        JoinAppend(x, jg + y, sep);
        JoinAppend(x, g + y, sep);
      } else {
        assert x + jg + y == jg + y;
        assert x + g + y == g + y;
      }
    }
  }

  /** A join holds the occurrences of its parts, and one more per separator when the separator holds one. */
  lemma {:induction false} CountJoin(parts: seq<string>, sep: string, c: char)
    requires Count(sep, c) <= 1
    ensures |parts| == 0 ==> Count(Join(parts, sep), c) == 0
    ensures |parts| > 0 ==> Count(Join(parts, sep), c) == SumCounts(parts, c) + (if Count(sep, c) == 1 then |parts| - 1 else 0)
  {
    if |parts| > 1 {
      CountJoin(parts[1..], sep, c);
      CountAppend(parts[0], sep, c);
      CountAppend(parts[0] + sep, Join(parts[1..], sep), c);
    } else if |parts| == 1 {
      assert SumCounts(parts[1..], c) == 0;
    }
  }

  /** Every separator of a join adds its own count, whatever that count is. */
  lemma {:induction false} CountJoinTimes(parts: seq<string>, sep: string, c: char)
    requires |parts| > 0
    ensures Count(Join(parts, sep), c) == SumCounts(parts, c) + (|parts| - 1) * Count(sep, c)
  {
    if |parts| > 1 {
      var rest := Join(parts[1..], sep);
      assert Join(parts, sep) == parts[0] + sep + rest;
      CountJoinTimes(parts[1..], sep, c);
      CountAppend(parts[0], sep, c);
      CountAppend(parts[0] + sep, rest, c);
      MulSucc(|parts| - 1, Count(sep, c));
    } else {
      assert SumCounts(parts[1..], c) == 0;
    }
  }

  lemma MulSucc(n: int, k: int)
    ensures (n - 1) * k + k == n * k
  {
  }

  /** Parts that each hold `k` copies of `c` hold `k` times as many together. */
  lemma {:induction false} SumCountsUniform(parts: seq<string>, c: char, k: nat)
    requires forall i | 0 <= i < |parts| :: Count(parts[i], c) == k
    ensures SumCounts(parts, c) == k * |parts|
  {
    if |parts| > 0 {
      SumCountsUniform(parts[1..], c, k);
      assert SumCounts(parts, c) == k + SumCounts(parts[1..], c);
      MulLeftSucc(|parts|, k);
    }
  }

  lemma MulLeftSucc(n: int, k: int)
    ensures k + k * (n - 1) == k * n
  {
  }

  /** Index of the first `c` in `s`, or -1. */
  function IndexOf(s: string, c: char): (r: int)
    ensures -1 <= r < |s|
    ensures r == -1 <==> c !in s
    ensures r >= 0 ==> s[r] == c && c !in s[..r]
  {
    if |s| == 0 then -1
    else if s[0] == c then 0
    else var k := IndexOf(s[1..], c); if k == -1 then -1 else k + 1
  }

  /** Index of the last `c` in `s`, or -1. */
  function LastIndexOf(s: string, c: char): (r: int)
    ensures -1 <= r < |s|
    ensures r == -1 <==> c !in s
    ensures r >= 0 ==> s[r] == c && c !in s[r + 1..]
  {
    if |s| == 0 then -1
    else if s[|s| - 1] == c then |s| - 1
    else LastIndexOf(s[..|s| - 1], c)
  }

  /** `substringBefore(c)`: the whole string when `c` is absent. */
  function SubstringBefore(s: string, c: char): (r: string)
    ensures c !in r
    ensures c !in s ==> r == s
    ensures c in s ==> r + [c] <= s
  {
    var k := IndexOf(s, c);
    if k == -1 then s else s[..k]
  }

  /** Is `p` a factor of `s` starting at `i`? */
  predicate OccursAt(s: string, p: string, i: nat)
  {
    i + |p| <= |s| && s[i..i + |p|] == p
  }

  predicate Contains(s: string, p: string)
  {
    exists i: nat | i <= |s| :: OccursAt(s, p, i)
  }

  /** Start of the last occurrence of a non-empty `p` in `s`, or -1. */
  function LastIndexOfString(s: string, p: string): (r: int)
    requires |p| > 0
    ensures r == -1 || 0 <= r <= |s| - |p|
    ensures r >= 0 ==> OccursAt(s, p, r)
    ensures r >= 0 ==> forall j: nat | r < j <= |s| :: !OccursAt(s, p, j)
    ensures r == -1 ==> forall j: nat | j <= |s| :: !OccursAt(s, p, j)
    decreases |s|
  {
    if |s| < |p| then -1
    else if s[|s| - |p|..] == p then |s| - |p|
    else
      var k := LastIndexOfString(s[..|s| - 1], p);
      assert forall j: nat | j <= |s| - 1 && OccursAt(s, p, j) :: OccursAt(s[..|s| - 1], p, j) by {
        forall j: nat | j + |p| < |s| && OccursAt(s, p, j) ensures OccursAt(s[..|s| - 1], p, j) {
          assert s[..|s| - 1][j..j + |p|] == s[j..j + |p|];
        }
      }
      if k == -1 then -1
      else
        assert s[..|s| - 1][k..k + |p|] == s[k..k + |p|];
        k
  }

  /** `substringAfterLast(p)`: the whole string when `p` is absent. */
  function SubstringAfterLast(s: string, p: string): (r: string)
    requires |p| > 0
    ensures !Contains(s, p) ==> r == s
    ensures Contains(s, p) ==> exists i: nat | i + |p| <= |s| :: s == s[..i] + p + r
  {
    var k := LastIndexOfString(s, p);
    if k == -1 then s
    else
      assert s == s[..k] + p + s[k + |p|..];
      s[k + |p|..]
  }

  /** Start of the first occurrence of `p` in `s`, or -1; an empty `p` occurs at 0. */
  function IndexOfString(s: string, p: string): (r: int)
    ensures r == -1 || 0 <= r <= |s| - |p|
    ensures r == -1 <==> !Contains(s, p)
    ensures r >= 0 ==> OccursAt(s, p, r) && forall j: nat | j < r :: !OccursAt(s, p, j)
    decreases |s|
  {
    if |s| < |p| then -1
    else if s[..|p|] == p then
      assert OccursAt(s, p, 0);
      0
    else
      var k := IndexOfString(s[1..], p);
      forall j: nat | j + 1 + |p| <= |s| ensures OccursAt(s[1..], p, j) <==> OccursAt(s, p, j + 1) {
        assert s[1..][j..j + |p|] == s[j + 1..j + 1 + |p|];
      }
      if k == -1 then
        assert !OccursAt(s, p, 0) by { assert s[0..|p|] == s[..|p|]; }
        forall j: nat | 0 < j <= |s| ensures !OccursAt(s, p, j) {
          assert !OccursAt(s[1..], p, j - 1);
        }
        -1
      else
        assert OccursAt(s, p, k + 1);
        assert !OccursAt(s, p, 0) by { assert s[0..|p|] == s[..|p|]; }
        assert forall j: nat | 0 < j <= k :: !OccursAt(s, p, j) by {
          forall j: nat | 0 < j <= k ensures !OccursAt(s, p, j) {
            assert !OccursAt(s[1..], p, j - 1);
          }
        }
        k + 1
  }

  /** `substringAfter(p)`: what follows the first occurrence of `p`, or the whole string when `p` is absent. */
  function SubstringAfterFirst(s: string, p: string): (r: string)
    ensures !Contains(s, p) ==> r == s
    ensures Contains(s, p) ==>
      |r| + |p| <= |s| && s[|s| - |r|..] == r && OccursAt(s, p, |s| - |r| - |p|)
      && forall j: nat | j < |s| - |r| - |p| :: !OccursAt(s, p, j)
  {
    var k := IndexOfString(s, p);
    if k == -1 then s else s[k + |p|..]
  }

  /** `substringBefore(p)`: what precedes the first occurrence of `p`, or the whole string when `p` is absent. */
  function SubstringBeforeFirst(s: string, p: string): (r: string)
    ensures !Contains(s, p) ==> r == s
    ensures Contains(s, p) ==>
      |r| + |p| <= |s| && s[..|r|] == r && OccursAt(s, p, |r|)
      && forall j: nat | j < |r| :: !OccursAt(s, p, j)
  {
    var k := IndexOfString(s, p);
    if k == -1 then s else s[..k]
  }

  /** In `a + p + b`, where `p` does not start within `a`, what follows the first `p` is `b`. */
  lemma AfterFirstFrame(a: string, p: string, b: string)
    requires forall j: nat | j < |a| :: !OccursAt(a + p + b, p, j)
    ensures Contains(a + p + b, p) && SubstringAfterFirst(a + p + b, p) == b
  {
    var s := a + p + b;
    assert OccursAt(s, p, |a|) by { assert s[|a|..|a| + |p|] == p; }
    var r := SubstringAfterFirst(s, p);
    var k := |s| - |r| - |p|;
    assert k == |a|;
    assert r == s[|a| + |p|..];
  }

  /** In `b + p + c`, where `p` does not start within `b`, what precedes the first `p` is `b`. */
  lemma BeforeFirstFrame(b: string, p: string, c: string)
    requires forall j: nat | j < |b| :: !OccursAt(b + p + c, p, j)
    ensures Contains(b + p + c, p) && SubstringBeforeFirst(b + p + c, p) == b
  {
    var s := b + p + c;
    assert OccursAt(s, p, |b|) by { assert s[|b|..|b| + |p|] == p; }
    var r := SubstringBeforeFirst(s, p);
    assert |r| == |b|;
    assert r == s[..|b|];
  }

  /** `p` cannot start inside `a` in `a + p + b` when `p` holds a character that `a` lacks. */
  lemma NoOccurrenceBefore(a: string, p: string, b: string, x: char)
    requires x in p && x !in a
    ensures forall j: nat | j < |a| :: !OccursAt(a + p + b, p, j)
  {
    var k := IndexOf(p, x);
  }

  /** In `h + t` with `h` ending in `p`, and the last character of `p` absent from `t`, what follows the last `p` is `t`. */
  lemma AfterLastFrame(h: string, p: string, t: string)
    requires 0 < |p| <= |h| && h[|h| - |p|..] == p
    requires p[|p| - 1] !in t
    ensures Contains(h + t, p) && SubstringAfterLast(h + t, p) == t
  {
    var s := h + t;
    assert OccursAt(s, p, |h| - |p|) by { assert s[|h| - |p|..|h|] == h[|h| - |p|..]; }
    var k := LastIndexOfString(s, p);
    assert k == |h| - |p|;
    assert s[k + |p|..] == t;
  }

  /** Replacing `t` in `h + t`, where `t` starts nowhere else, replaces only the final copy. */
  lemma {:induction false} ReplaceOnlyAtEnd(h: string, t: string, rep: string)
    requires |t| > 0
    requires forall j: nat | j < |h| :: !OccursAt(h + t, t, j)
    ensures ReplaceAll(h + t, t, rep) == h + rep
    decreases |h|
  {
    var s := h + t;
    if |h| == 0 {
      assert s == t && s[..|t|] == t && s[|t|..] == "";
    } else {
      assert !OccursAt(s, t, 0);
      assert s[..|t|] != t;
      assert s[1..] == h[1..] + t;
      forall j: nat | j < |h[1..]| ensures !OccursAt(h[1..] + t, t, j) {
        assert !OccursAt(s, t, j + 1);
        assert s[j + 1..j + 1 + |t|] == (h[1..] + t)[j..j + |t|];
      }
      ReplaceOnlyAtEnd(h[1..], t, rep);
      assert [h[0]] + (h[1..] + rep) == h + rep;
    }
  }

  /**
   * `replace(pat, rep)` on strings, as the Kotlin standard library does it:
   * leftmost non-overlapping occurrences, and an empty `pat` matches before
   * every character and at the end.
   */
  function ReplaceAll(s: string, pat: string, rep: string): (r: string)
    decreases |s|
  {
    if |pat| == 0 then rep + Interleave(s, rep)
    else if |s| < |pat| then s
    else if s[..|pat|] == pat then rep + ReplaceAll(s[|pat|..], pat, rep)
    else [s[0]] + ReplaceAll(s[1..], pat, rep)
  }

  /** Each character of `s` followed by `sep`. */
  function Interleave(s: string, sep: string): (r: string)
    ensures |r| == |s| * (1 + |sep|)
  {
    if |s| == 0 then "" else [s[0]] + sep + Interleave(s[1..], sep)
  }

  lemma ReplaceAllAbsent(s: string, pat: string, rep: string)
    requires |pat| > 0
    requires forall i: nat | i <= |s| :: !OccursAt(s, pat, i)
    ensures ReplaceAll(s, pat, rep) == s
    decreases |s|
  {
    if |s| >= |pat| {
      assert !OccursAt(s, pat, 0);
      forall i: nat | i <= |s[1..]| ensures !OccursAt(s[1..], pat, i) {
        assert !OccursAt(s, pat, i + 1);
        if i + |pat| <= |s[1..]| {
          assert s[1..][i..i + |pat|] == s[i + 1..i + 1 + |pat|];
        }
      }
      ReplaceAllAbsent(s[1..], pat, rep);
    }
  }

  function Repeat(c: char, n: nat): (r: string)
    ensures |r| == n
    ensures forall i | 0 <= i < n :: r[i] == c
  {
    if n == 0 then "" else [c] + Repeat(c, n - 1)
  }

  // ---------------------------------------------------------------- trim

  /**
   * Kotlin's `Char.isWhitespace()`: Java's `Character.isWhitespace` together
   * with the space separators of `Character.isSpaceChar`.
   */
  predicate IsWhitespace(c: char)
  {
    ('\t' <= c <= '\r') || ('\U{1C}' <= c <= '\U{1F}') || c == ' '
    || c == '\U{A0}' || c == '\U{1680}' || ('\U{2000}' <= c <= '\U{200A}')
    || c == '\U{2028}' || c == '\U{2029}' || c == '\U{202F}' || c == '\U{205F}'
    || c == '\U{3000}'
  }

  function TrimStart(s: string): (r: string)
    ensures |r| <= |s| && r == s[|s| - |r|..]
    ensures |r| > 0 ==> !IsWhitespace(r[0])
    ensures forall i | 0 <= i < |s| - |r| :: IsWhitespace(s[i])
  {
    if |s| > 0 && IsWhitespace(s[0]) then TrimStart(s[1..]) else s
  }

  function TrimEnd(s: string): (r: string)
    ensures |r| <= |s| && r == s[..|r|]
    ensures |r| > 0 ==> !IsWhitespace(r[|r| - 1])
    ensures forall i | |r| <= i < |s| :: IsWhitespace(s[i])
  {
    if |s| > 0 && IsWhitespace(s[|s| - 1]) then TrimEnd(s[..|s| - 1]) else s
  }

  /** `trim()` */
  function Trim(s: string): (r: string)
    ensures |r| > 0 ==> !IsWhitespace(r[0]) && !IsWhitespace(r[|r| - 1])
  {
    TrimEnd(TrimStart(s))
  }

  predicate IsTrimmed(s: string)
  {
    |s| > 0 ==> !IsWhitespace(s[0]) && !IsWhitespace(s[|s| - 1])
  }

  lemma TrimIdempotent(s: string)
    requires IsTrimmed(s)
    ensures Trim(s) == s
  {
  }

  /** Leading spaces go with `trimStart`. */
  lemma {:induction false} TrimStartSpaces(n: nat, s: string)
    ensures TrimStart(Repeat(' ', n) + s) == TrimStart(s)
  {
    if n > 0 {
      assert (Repeat(' ', n) + s)[1..] == Repeat(' ', n - 1) + s;
      TrimStartSpaces(n - 1, s);
    } else {
      assert Repeat(' ', n) + s == s;
    }
  }

  // ---------------------------------------------------------------- split on "::"

  /** Start of the first "::" in `s`, or -1. */
  function SepIndex(s: string): (r: int)
    ensures -1 <= r <= |s| - 2 || r == -1
    ensures r >= 0 ==> s[r] == ':' && s[r + 1] == ':'
    ensures r >= 0 ==> forall j | 0 <= j < r :: !(s[j] == ':' && s[j + 1] == ':')
    ensures r == -1 ==> forall j | 0 <= j < |s| - 1 :: !(s[j] == ':' && s[j + 1] == ':')
  {
    if |s| < 2 then -1
    else if s[0] == ':' && s[1] == ':' then 0
    else var k := SepIndex(s[1..]); if k == -1 then -1 else k + 1
  }

  /** `split("::")` */
  function SplitColons(s: string): (r: seq<string>)
    ensures |r| >= 1
    decreases |s|
  {
    var k := SepIndex(s);
    if k == -1 then [s] else [s[..k]] + SplitColons(s[k + 2..])
  }

  lemma {:induction false} SplitJoinColons(parts: seq<string>)
    requires |parts| >= 1
    requires forall i | 0 <= i < |parts| :: ':' !in parts[i]
    ensures SplitColons(Join(parts, "::")) == parts
  {
    if |parts| == 1 {
      assert SepIndex(parts[0]) == -1;
    } else {
      var rest := Join(parts[1..], "::");
      assert Join(parts, "::") == parts[0] + "::" + rest;
      SplitAfterPart(parts[0], rest);
      SplitJoinColons(parts[1..]);
      assert parts == [parts[0]] + parts[1..];
    }
  }

  /** One `::` after a colon-free part is where `split("::")` cuts first. */
  lemma SplitAfterPart(p: string, rest: string)
    requires ':' !in p
    ensures SplitColons(p + "::" + rest) == [p] + SplitColons(rest)
  {
    var s := p + "::" + rest;
    SepIndexAt(p, rest);
    assert s[..|p|] == p;
    assert s[|p| + 2..] == rest;
  }

  lemma SepIndexAt(p: string, rest: string)
    requires ':' !in p
    ensures SepIndex(p + "::" + rest) == |p|
  {
    var s := p + "::" + rest;
    assert s[|p|] == ':' && s[|p| + 1] == ':';
    forall j | 0 <= j < |p| ensures !(s[j] == ':' && s[j + 1] == ':') {
      assert s[j] == p[j];
    }
  }

  // ---------------------------------------------------------------- numbers

  function DigitChar(d: nat): char
    requires d < 16
  {
    if d < 10 then ('0' as int + d) as char else ('a' as int + d - 10) as char
  }

  function DigitValue(c: char): int
  {
    if '0' <= c <= '9' then c as int - '0' as int
    else if 'a' <= c <= 'f' then c as int - 'a' as int + 10
    else -1
  }

  /** Digits of `n` in base `b` with no leading zeros ("0" for zero). */
  function Digits(n: nat, b: nat): (r: string)
    requires 2 <= b <= 16
    ensures |r| >= 1
    ensures forall i | 0 <= i < |r| :: 0 <= DigitValue(r[i]) < b
  {
    if n < b then [DigitChar(n)] else DivShrinks(n, b); Digits(n / b, b) + [DigitChar(n % b)]
  }

  lemma DivShrinks(n: nat, b: nat)
    requires 2 <= b <= n
    ensures 0 <= n / b < n && 0 <= n % b < b
  {
  }

  function Value(s: string, b: nat): int
  {
    if |s| == 0 then 0 else Value(s[..|s| - 1], b) * b + DigitValue(s[|s| - 1])
  }

  lemma DigitRoundTrip(d: nat)
    requires d < 16
    ensures DigitValue(DigitChar(d)) == d
  {
  }

  lemma ValueSnoc(h: string, c: char, b: nat)
    ensures Value(h + [c], b) == Value(h, b) * b + DigitValue(c)
  {
    assert (h + [c])[..|h + [c]| - 1] == h;
  }

  lemma ValueDigitsBase(n: nat, b: nat)
    requires 2 <= b <= 16 && n < b
    ensures Value(Digits(n, b), b) == n
  {
    DigitRoundTrip(n);
    ValueSnoc("", DigitChar(n), b);
    assert Digits(n, b) == "" + [DigitChar(n)];
  }

  lemma ValueDigitsStep(n: nat, b: nat, h: string)
    requires 2 <= b <= 16 && n >= b
    requires h == Digits(n / b, b) && Value(h, b) == n / b
    ensures Value(Digits(n, b), b) == n
  {
    var m := n % b;
    assert Digits(n, b) == h + [DigitChar(m)];
    DigitRoundTrip(m);
    ValueSnoc(h, DigitChar(m), b);
    DivMod(n, b);
  }

  lemma DivMod(n: nat, b: nat)
    requires b >= 2
    ensures n == (n / b) * b + n % b
  {
  }

  /** Reading back the digits `Digits` prints gives the number printed. */
  lemma {:induction false} ValueDigits(n: nat, b: nat)
    requires 2 <= b <= 16
    ensures Value(Digits(n, b), b) == n
  {
    if n < b {
      ValueDigitsBase(n, b);
    } else {
      ValueDigits(n / b, b);
      ValueDigitsStep(n, b, Digits(n / b, b));
    }
  }

  /** `n.toString()` for the non-negative counters the generator prints. */
  function NatToString(n: nat): (r: string)
    ensures |r| >= 1
    ensures forall i | 0 <= i < |r| :: IsDigit(r[i])
  {
    Digits(n, 10)
  }

  lemma NatToStringInjective(m: nat, n: nat)
    requires NatToString(m) == NatToString(n)
    ensures m == n
  {
    ValueDigits(m, 10);
    ValueDigits(n, 10);
  }

  /** `String.format("%05x", n)`: lower-case hex, left-padded with zeros to five digits. */
  function Hex5(n: nat): (r: string)
    ensures |r| >= 5
    ensures forall i | 0 <= i < |r| :: 0 <= DigitValue(r[i]) < 16
  {
    var d := Digits(n, 16);
    Repeat('0', if |d| < 5 then 5 - |d| else 0) + d
  }

  lemma {:induction false} ValueLeadingZeros(k: nat, s: string, b: nat)
    requires 2 <= b <= 16
    ensures Value(Repeat('0', k) + s, b) == Value(s, b)
    decreases |s|, k
  {
    if |s| == 0 {
      assert Repeat('0', k) + s == Repeat('0', k);
      ZerosValue(k, b);
    } else {
      assert (Repeat('0', k) + s)[..|Repeat('0', k) + s| - 1] == Repeat('0', k) + s[..|s| - 1];
      ValueLeadingZeros(k, s[..|s| - 1], b);
    }
  }

  lemma {:induction false} ZerosValue(k: nat, b: nat)
    ensures Value(Repeat('0', k), b) == 0
  {
    if k > 0 {
      assert Repeat('0', k)[..k - 1] == Repeat('0', k - 1);
      ZerosValue(k - 1, b);
    }
  }

  lemma Hex5Value(n: nat)
    ensures Value(Hex5(n), 16) == n
  {
    var d := Digits(n, 16);
    ValueLeadingZeros(if |d| < 5 then 5 - |d| else 0, d, 16);
    ValueDigits(n, 16);
  }

  /** A string cut at its last `c` determines both sides. */
  lemma SplitAtLast(a1: string, m1: string, a2: string, m2: string, c: char)
    requires c !in m1 && c !in m2
    requires a1 + [c] + m1 == a2 + [c] + m2
    ensures a1 == a2 && m1 == m2
  {
    var s := a1 + [c] + m1;
    assert s[|a1|] == c;
    assert s[|a2|] == c;
    assert |a1| == |a2|;
    assert a1 == s[..|a1|];
    assert a2 == s[..|a2|];
    assert m1 == s[|a1| + 1..];
  }
}
