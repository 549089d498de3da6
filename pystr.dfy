/**
 * The handful of Python `str` operations the program relies on: `lower()`,
 * `strip()` with and without a character argument, `startswith`, `in`,
 * `find`, `split` on one separator and slicing past the end.
 */
module PyStr {
  import opened Wrappers

  /** `c.isspace()` in Python 3: the characters `str.strip()` removes by default. */
  predicate IsSpace(c: char) {
    c == ' ' || ('\t' <= c <= '\r') || ('\U{1C}' <= c <= '\U{1F}')
    || c == '\U{85}' || c == '\U{A0}' || c == '\U{1680}'
    || ('\U{2000}' <= c <= '\U{200A}') || c == '\U{2028}' || c == '\U{2029}'
    || c == '\U{202F}' || c == '\U{205F}' || c == '\U{3000}'
  }

  predicate IsAsciiDigit(c: char) { '0' <= c <= '9' }

  /** A character `\w` matches (ASCII letters, digits and the underscore). */
  predicate IsWordChar(c: char) {
    ('a' <= c <= 'z') || ('A' <= c <= 'Z') || IsAsciiDigit(c) || c == '_'
  }

  function LowerChar(c: char): char {
    if 'A' <= c <= 'Z' then (c as int - 'A' as int + 'a' as int) as char else c
  }

  /** `s.lower()` on the ASCII range. */
  function Lower(s: string): (r: string)
    ensures |r| == |s|
    ensures forall i :: 0 <= i < |s| ==> r[i] == LowerChar(s[i])
  {
    seq(|s|, i requires 0 <= i < |s| => LowerChar(s[i]))
  }

  /** Number of leading characters of `s` that `drop` removes. */
  function LeftEdge(s: string, drop: char -> bool): (i: nat)
    ensures i <= |s|
    ensures forall k :: 0 <= k < i ==> drop(s[k])
    ensures i < |s| ==> !drop(s[i])
  {
    if s == [] || !drop(s[0]) then 0 else 1 + LeftEdge(s[1..], drop)
  }

  /** Length of `s` once the trailing characters that `drop` removes are gone. */
  function RightEdge(s: string, drop: char -> bool): (j: nat)
    ensures j <= |s|
    ensures forall k :: j <= k < |s| ==> drop(s[k])
    ensures 0 < j ==> !drop(s[j - 1])
  {
    if s == [] || !drop(s[|s| - 1]) then |s| else RightEdge(s[..|s| - 1], drop)
  }

  /**
   * `s.strip(chars)`: the longest middle part of `s` whose first and last
   * characters are not removable, everything around it being removable.
   */
  function StripBy(s: string, drop: char -> bool): (r: string)
    ensures exists i, j {:trigger s[i..j]} :: 0 <= i <= j <= |s| && r == s[i..j]
              && (forall k :: 0 <= k < i ==> drop(s[k]))
              && (forall k :: j <= k < |s| ==> drop(s[k]))
    ensures r != [] ==> !drop(r[0]) && !drop(r[|r| - 1])
  {
    var i := LeftEdge(s, drop);
    var t := s[i..];
    var j := RightEdge(t, drop);
    var r := s[i..i + j];
    assert r == t[..j];
    assert r != [] ==> r[0] == t[0] && r[|r| - 1] == t[j - 1];
    assert forall k :: i + j <= k < |s| ==> s[k] == t[k - i];
    assert r == s[i..i + j] && (forall k :: 0 <= k < i ==> drop(s[k]));
    r
  }

  /** `s.strip()`. */
  function Strip(s: string): (r: string)
    ensures r != [] ==> !IsSpace(r[0]) && !IsSpace(r[|r| - 1])
  {
    StripBy(s, IsSpace)
  }

  /** `s.startswith(p)`. */
  predicate StartsWith(s: string, p: string) {
    |p| <= |s| && s[..|p|] == p
  }

  predicate OccursAt(s: string, pat: string, i: nat) {
    i + |pat| <= |s| && s[i..i + |pat|] == pat
  }

  /** The first occurrence of `pat` in `s` at or after `from` (`s.find(pat, from)`). */
  function IndexOfFrom(s: string, pat: string, from: nat): (r: Option<nat>)
    ensures r.Some? ==> from <= r.value && OccursAt(s, pat, r.value)
    ensures r.Some? ==> forall j: nat :: from <= j < r.value ==> !OccursAt(s, pat, j)
    ensures r.None? ==> forall j: nat :: from <= j ==> !OccursAt(s, pat, j)
    decreases |s| - from
  {
    if from + |pat| > |s| then None
    else if OccursAt(s, pat, from) then Some(from)
    else IndexOfFrom(s, pat, from + 1)
  }

  function IndexOf(s: string, pat: string): (r: Option<nat>)
    ensures r.Some? ==> OccursAt(s, pat, r.value)
    ensures r.Some? ==> forall j: nat :: j < r.value ==> !OccursAt(s, pat, j)
    ensures r.None? ==> forall j: nat :: !OccursAt(s, pat, j)
  {
    IndexOfFrom(s, pat, 0)
  }

  /** An occurrence with none before it is the one `find` returns. */
  lemma IndexOfIs(s: string, pat: string, i: nat)
    requires OccursAt(s, pat, i) && forall j: nat :: j < i ==> !OccursAt(s, pat, j)
    ensures IndexOf(s, pat) == Some(i)
  {
  }

  /** `pat in s`. */
  predicate Contains(s: string, pat: string) {
    IndexOf(s, pat).Some?
  }

  /** `s[n:]` for a non-negative `n`, which is empty when `n` is past the end. */
  function SliceFrom(s: string, n: nat): string {
    if n <= |s| then s[n..] else []
  }

  /** `s[:n]` for a non-negative `n`, which is all of `s` when `n` is past the end. */
  function SliceTo(s: string, n: nat): string {
    if n <= |s| then s[..n] else s
  }

  /** The text before the first occurrence of `c` (all of `s` when there is none). */
  function Before(s: string, c: char): (r: string)
    ensures c !in r
    ensures StartsWith(s, r)
    ensures |r| < |s| ==> s[|r|] == c
    ensures c in s ==> |r| < |s|
  {
    if s == [] || s[0] == c then [] else [s[0]] + Before(s[1..], c)
  }

  /** The text before the first `c` of `a + b` is `a` when `a` holds no `c` and `b` is empty or starts with `c`. */
  lemma BeforeOf(s: string, a: string, b: string, c: char)
    requires s == a + b && c !in a && (b == [] || b[0] == c)
    ensures Before(s, c) == a
  {
    var r := Before(s, c);
    assert s[..|r|] == r;
    assert r == s[..|a|] == a;
  }

  /** The text after the first occurrence of `c` (empty when there is none). */
  function After(s: string, c: char): (r: string)
    ensures c in s ==> s == Before(s, c) + [c] + r
    ensures c !in s ==> r == []
  {
    if c in s then
      var b := Before(s, c);
      assert s == b + [c] + s[|b| + 1..] by {
        assert s == s[..|b|] + [s[|b|]] + s[|b| + 1..];
      }
      s[|b| + 1..]
    else []
  }

  /** How many times `c` occurs in `s`; `s.split(c)` has one part more. */
  function Count(s: string, c: char): nat {
    if s == [] then 0 else (if s[0] == c then 1 else 0) + Count(s[1..], c)
  }

  /**
   * What follows the last separator in `s`, all of `s` when there is none:
   * `s.rsplit(sep, 1)[-1]` and `re.split("[...]", s)[-1]`.
   */
  function LastPart(s: string, isSep: char -> bool): (r: string)
    ensures |r| <= |s| && r == s[|s| - |r|..]
    ensures forall c :: c in r ==> !isSep(c)
    ensures |r| < |s| ==> isSep(s[|s| - |r| - 1])
  {
    if s == [] || isSep(s[|s| - 1]) then [] else LastPart(s[..|s| - 1], isSep) + [s[|s| - 1]]
  }

  lemma {:induction false} CountConcat(a: string, b: string, c: char)
    ensures Count(a + b, c) == Count(a, c) + Count(b, c)
  {
    if a == [] {
      assert a + b == b;
    } else {
      assert (a + b)[0] == a[0] && (a + b)[1..] == a[1..] + b;
      CountConcat(a[1..], b, c);
    }
  }

  lemma {:induction false} CountZero(s: string, c: char)
    ensures Count(s, c) == 0 <==> c !in s
  {
    if s != [] {
      CountZero(s[1..], c);
      assert s == [s[0]] + s[1..];
    }
  }

  /** Splitting `u + [c] + m` at its first `c`, when `u` has none, gives back `u` and `m`. */
  lemma {:induction false} SplitAtFirst(u: string, m: string, c: char)
    requires c !in u
    ensures Before(u + [c] + m, c) == u && After(u + [c] + m, c) == m
  {
    var s := u + [c] + m;
    if u != [] {
      assert s[1..] == u[1..] + [c] + m;
      SplitAtFirst(u[1..], m, c);
    }
  }

  /** Stripping only removes characters: whatever it keeps was in the string. */
  lemma StripByWithin(s: string, drop: char -> bool)
    ensures forall c :: c in StripBy(s, drop) ==> c in s
  {
    var i, j :| 0 <= i <= j <= |s| && StripBy(s, drop) == s[i..j];
    assert s[i..j] == s[..j][i..];
  }

  /** Stripping keeps exactly `s[i..j]` when everything outside it is removable and its ends are not. */
  lemma StripByExact(s: string, drop: char -> bool, i: nat, j: nat)
    requires i < j <= |s| && !drop(s[i]) && !drop(s[j - 1])
    requires (forall k :: 0 <= k < i ==> drop(s[k])) && (forall k :: j <= k < |s| ==> drop(s[k]))
    ensures StripBy(s, drop) == s[i..j]
  {
    LeftEdgeAt(s, drop, i);
    var t := s[i..];
    assert t[j - i - 1] == s[j - 1];
    forall k | j - i <= k < |t| ensures drop(t[k]) {
      assert t[k] == s[i + k];
    }
    RightEdgeAt(t, drop, j - i);
    assert s[i..j] == s[i..i + (j - i)];
  }

  /** The left edge is the first position whose character is kept. */
  lemma LeftEdgeAt(s: string, drop: char -> bool, i: nat)
    requires i < |s| && !drop(s[i]) && forall k :: 0 <= k < i ==> drop(s[k])
    ensures LeftEdge(s, drop) == i
  {
  }

  /** The right edge is just after the last position whose character is kept. */
  lemma RightEdgeAt(t: string, drop: char -> bool, j: nat)
    requires 0 < j <= |t| && !drop(t[j - 1]) && forall k :: j <= k < |t| ==> drop(t[k])
    ensures RightEdge(t, drop) == j
  {
  }

  /** Stripping changes nothing when neither end is removable. */
  lemma StripByKeeps(s: string, drop: char -> bool)
    requires s != [] ==> !drop(s[0]) && !drop(s[|s| - 1])
    ensures StripBy(s, drop) == s
  {
    if s != [] {
      assert LeftEdge(s, drop) == 0;
      assert s[0..] == s;
      assert RightEdge(s, drop) == |s|;
    }
  }

  /** `a, b = s.split(sep)`: succeeds only when `sep` occurs exactly once. */
  function SplitPair(s: string, sep: char): Option<(string, string)> {
    if Count(s, sep) == 1 then Some((Before(s, sep), After(s, sep))) else None
  }

  /** The split gives back the two halves around the one separator, and only such strings split. */
  lemma SplitPairRoundTrip(s: string, a: string, b: string, sep: char)
    ensures SplitPair(s, sep) == Some((a, b)) <==> s == a + [sep] + b && sep !in a && sep !in b
  {
    if s == a + [sep] + b && sep !in a && sep !in b {
      CountConcat(a + [sep], b, sep);
      CountConcat(a, [sep], sep);
      CountZero(a, sep);
      CountZero(b, sep);
      SplitAtFirst(a, b, sep);
    }
    if SplitPair(s, sep) == Some((a, b)) {
      assert sep in s by {
        CountZero(s, sep);
      }
      assert s == a + [sep] + b;
      CountConcat(a + [sep], b, sep);
      CountConcat(a, [sep], sep);
      CountZero(a, sep);
      CountZero(b, sep);
    }
  }
}
