/**
 * How `handle_input` sorts a submitted line, and the three `re.findall`
 * extractions it performs: the IPv4 literals of a `set ... rhost` line, the
 * session number of `sessions -i N`, and the module of `use ...`.
 */
module Commands {
  import opened Wrappers
  import opened PyStr

  /** `text.lower().strip()`, the form every category test looks at. */
  function Normalize(text: string): string {
    Strip(Lower(text))
  }

  datatype Category =
    | ExitCommand       // exactly `exit`
    | SessionInteract   // begins with `sessions -i`
    | ExploitCommand    // begins with `exploit`
    | SetRhost          // begins with `set` and mentions `rhost`
    | UseModule         // begins with `use`
    | PlainCommand      // everything else

  /** The `if`/`elif` chain of the packaged `handle_input`, first test first. */
  function Classify(lower: string): Category {
    if lower == "exit" then ExitCommand
    else if StartsWith(lower, "sessions -i") then SessionInteract
    else if StartsWith(lower, "exploit") then ExploitCommand
    else if StartsWith(lower, "set") && Contains(lower, "rhost") then SetRhost
    else if StartsWith(lower, "use") then UseModule
    else PlainCommand
  }

  // ---------------------------------------------------------------------------
  // (\d{1,3}\.\d{1,3}\.\d{1,3}\.\d{1,3}) over the original line
  // ---------------------------------------------------------------------------

  /** Length of the run of ASCII digits that starts at `p`. */
  function DigitRun(s: string, p: nat): (n: nat)
    ensures p + n <= |s| || (p >= |s| && n == 0)
    ensures forall k :: p <= k < p + n ==> IsAsciiDigit(s[k])
    ensures p + n < |s| ==> !IsAsciiDigit(s[p + n])
    decreases |s| - p
  {
    if p < |s| && IsAsciiDigit(s[p]) then 1 + DigitRun(s, p + 1) else 0
  }

  predicate DigitOrDot(c: char) { IsAsciiDigit(c) || c == '.' }

  /**
   * Where `\d{1,3}\.` ends when tried at `p`. A group followed by a fourth
   * digit cannot be followed by the dot, whatever the backtracking.
   */
  function GroupDotEnd(s: string, p: nat): (r: Option<nat>)
    ensures r.Some? ==> p + 2 <= r.value <= p + 4 && r.value <= |s|
    ensures r.Some? ==> IsAsciiDigit(s[p]) && s[r.value - 1] == '.'
    ensures r.Some? ==> forall k :: p <= k < r.value ==> DigitOrDot(s[k])
  {
    var n := DigitRun(s, p);
    if 1 <= n <= 3 && p + n < |s| && s[p + n] == '.' then Some(p + n + 1) else None
  }

  /** Where the dotted-quad pattern ends when tried at `p`; the last group takes up to three digits. */
  function Ipv4MatchAt(s: string, p: nat): (r: Option<nat>)
    ensures r.Some? ==> p + 7 <= r.value <= p + 15 && r.value <= |s|
    ensures r.Some? ==> IsAsciiDigit(s[p]) && IsAsciiDigit(s[r.value - 1])
    ensures r.Some? ==> forall k :: p <= k < r.value ==> DigitOrDot(s[k])
  {
    match GroupDotEnd(s, p)
    case None => None
    case Some(p1) =>
      match GroupDotEnd(s, p1)
      case None => None
      case Some(p2) =>
        match GroupDotEnd(s, p2)
        case None => None
        case Some(p3) =>
          var n := DigitRun(s, p3);
          if n == 0 then None else Some(p3 + (if n < 3 then n else 3))
  }

  /** A string the dotted-quad pattern can produce. */
  predicate LooksLikeIpv4(t: string) {
    7 <= |t| <= 15 && IsAsciiDigit(t[0]) && IsAsciiDigit(t[|t| - 1])
    && forall k :: 0 <= k < |t| ==> DigitOrDot(t[k])
  }

  /** `re.findall` of the dotted-quad pattern from position `p` on: left to right, non-overlapping. */
  function FindIpv4From(s: string, p: nat): (r: seq<string>)
    ensures forall t :: t in r ==> LooksLikeIpv4(t)
    decreases |s| - p
  {
    if p >= |s| then []
    else match Ipv4MatchAt(s, p)
      case Some(e) =>
        var t := s[p..e];
        assert forall k :: 0 <= k < |t| ==> t[k] == s[p + k];
        [t] + FindIpv4From(s, e)
      case None => FindIpv4From(s, p + 1)
  }

  /** The targets of a `set ... rhost` line, taken from the line as typed. */
  function ExtractTargets(text: string): seq<string> {
    FindIpv4From(text, 0)
  }

  // ---------------------------------------------------------------------------
  // sessions? -i\W+([0-9]{1,9}) over the lower-cased line
  // ---------------------------------------------------------------------------

  /** Length of the run of characters `\W` matches that starts at `p`. */
  function NonWordRun(s: string, p: nat): (n: nat)
    ensures p + n <= |s| || (p >= |s| && n == 0)
    ensures forall k :: p <= k < p + n ==> !IsWordChar(s[k])
    ensures p + n < |s| ==> IsWordChar(s[p + n])
    decreases |s| - p
  {
    if p < |s| && !IsWordChar(s[p]) then 1 + NonWordRun(s, p + 1) else 0
  }

  /** The captured session number when the pattern is tried at `p`. */
  function SessionIdAt(s: string, p: nat): (r: Option<string>)
    ensures r.Some? ==> 1 <= |r.value| <= 9 && forall c :: c in r.value ==> IsAsciiDigit(c)
  {
    var q :=
      if OccursAt(s, "sessions -i", p) then Some(p + 11)
      else if OccursAt(s, "session -i", p) then Some(p + 10)
      else None;
    if q.None? then None
    else
      var w := NonWordRun(s, q.value);
      var d := DigitRun(s, q.value + w);
      if w == 0 || d == 0 then None
      else
        var start := q.value + w;
        var id := s[start..start + (if d < 9 then d else 9)];
        assert forall k :: 0 <= k < |id| ==> id[k] == s[start + k];
        Some(id)
  }

  /** `re.findall(...)[0]`: the capture of the leftmost match at or after `p`, or the `IndexError`. */
  function SessionIdFrom(s: string, p: nat): (r: Option<string>)
    ensures r.Some? ==> 1 <= |r.value| <= 9 && forall c :: c in r.value ==> IsAsciiDigit(c)
    decreases |s| - p
  {
    if p >= |s| then None
    else match SessionIdAt(s, p)
      case Some(id) => Some(id)
      case None => SessionIdFrom(s, p + 1)
  }

  function SessionId(lower: string): Option<string> {
    SessionIdFrom(lower, 0)
  }

  // ---------------------------------------------------------------------------
  // What the two searches find
  // ---------------------------------------------------------------------------

  /** A run of `n` digits starting at `p` that no further digit follows is measured exactly. */
  lemma {:induction false} DigitRunOf(s: string, p: nat, n: nat)
    requires p + n <= |s| && forall k :: p <= k < p + n ==> IsAsciiDigit(s[k])
    requires p + n == |s| || !IsAsciiDigit(s[p + n])
    ensures DigitRun(s, p) == n
    decreases n
  {
    if n > 0 {
      DigitRunOf(s, p + 1, n - 1);
    }
  }

  /** One to three digits: what `\d{1,3}` matches in full. */
  predicate Group(g: string) {
    1 <= |g| <= 3 && forall k :: 0 <= k < |g| ==> IsAsciiDigit(g[k])
  }

  /** `g` followed by a dot at `p` is a `\d{1,3}\.` ending after the dot. */
  lemma GroupDotAt(s: string, p: nat, g: string)
    requires Group(g) && p + |g| < |s| && s[p + |g|] == '.'
    requires forall k :: 0 <= k < |g| ==> s[p + k] == g[k]
    ensures GroupDotEnd(s, p) == Some(p + |g| + 1)
  {
    assert forall k :: p <= k < p + |g| ==> s[k] == g[k - p];
    DigitRunOf(s, p, |g|);
  }

  /** Text `g.rest` at `p`: `g` character by character, the dot, then `rest` as a slice. */
  lemma GroupDotLayout(s: string, p: nat, g: string, rest: string)
    requires p + |g| + 1 + |rest| <= |s| && s[p..p + |g| + 1 + |rest|] == g + "." + rest
    ensures s[p + |g|] == '.' && (forall k :: 0 <= k < |g| ==> s[p + k] == g[k])
    ensures s[p + |g| + 1..p + |g| + 1 + |rest|] == rest
  {
    var t := s[p..p + |g| + 1 + |rest|];
    assert forall k :: 0 <= k < |t| ==> s[p + k] == t[k];
    assert t[|g|] == '.';
    assert forall k :: 0 <= k < |g| ==> t[k] == g[k];
    assert t[|g| + 1..] == rest;
  }

  /** The dotted quad `a.b.c.d`. */
  function Quad(a: string, b: string, c: string, d: string): string {
    a + "." + (b + "." + (c + "." + d))
  }

  /** A dotted quad of one- to three-digit groups, not followed by a digit, is matched in full. */
  lemma Ipv4MatchOf(s: string, p: nat, a: string, b: string, c: string, d: string)
    requires Group(a) && Group(b) && Group(c) && Group(d)
    requires p + |Quad(a, b, c, d)| <= |s| && s[p..p + |Quad(a, b, c, d)|] == Quad(a, b, c, d)
    requires p + |Quad(a, b, c, d)| == |s| || !IsAsciiDigit(s[p + |Quad(a, b, c, d)|])
    ensures Ipv4MatchAt(s, p) == Some(p + |Quad(a, b, c, d)|)
  {
    var r1 := b + "." + (c + "." + d);
    assert Quad(a, b, c, d) == a + "." + r1;
    var p1 := p + |a| + 1;
    var p2 := p1 + |b| + 1;
    var p3 := p2 + |c| + 1;
    var e := p + |Quad(a, b, c, d)|;
    assert |r1| == |b| + |c| + |d| + 2;
    assert e == p3 + |d|;
    GroupStep(s, p, p1, a, r1);
    ThreeGroups(s, p1, p2, p3, b, c, d);
    QuadFromGroups(s, p, p1, p2, p3, e);
  }

  /** `b.c.d` at `p1`, not followed by a digit: two groups with their dots, then the last group. */
  lemma ThreeGroups(s: string, p1: nat, p2: nat, p3: nat, b: string, c: string, d: string)
    requires Group(b) && Group(c) && Group(d) && p2 == p1 + |b| + 1 && p3 == p2 + |c| + 1
    requires p3 + |d| <= |s| && s[p1..p3 + |d|] == b + "." + (c + "." + d)
    requires p3 + |d| == |s| || !IsAsciiDigit(s[p3 + |d|])
    ensures GroupDotEnd(s, p1) == Some(p2) && GroupDotEnd(s, p2) == Some(p3) && DigitRun(s, p3) == |d|
  {
    GroupStep(s, p1, p2, b, c + "." + d);
    TwoGroups(s, p2, p3, c, d);
  }

  /** `c.d` at `p2`, not followed by a digit: a group with its dot, then the last group. */
  lemma TwoGroups(s: string, p2: nat, p3: nat, c: string, d: string)
    requires Group(c) && Group(d) && p3 == p2 + |c| + 1
    requires p3 + |d| <= |s| && s[p2..p3 + |d|] == c + "." + d
    requires p3 + |d| == |s| || !IsAsciiDigit(s[p3 + |d|])
    ensures GroupDotEnd(s, p2) == Some(p3) && DigitRun(s, p3) == |d|
  {
    GroupStep(s, p2, p3, c, d);
    LastGroup(s, p3, d);
  }

  /** `g.rest` at `p`: the group and its dot are matched up to `q`, and `rest` follows. */
  lemma GroupStep(s: string, p: nat, q: nat, g: string, rest: string)
    requires Group(g) && q == p + |g| + 1 && q + |rest| <= |s| && s[p..q + |rest|] == g + "." + rest
    ensures GroupDotEnd(s, p) == Some(q) && s[q..q + |rest|] == rest
  {
    GroupDotLayout(s, p, g, rest);
    GroupDotAt(s, p, g);
  }

  /** The last group, not followed by a digit, is a run of exactly its digits. */
  lemma LastGroup(s: string, p: nat, g: string)
    requires Group(g) && p + |g| <= |s| && s[p..p + |g|] == g
    requires p + |g| == |s| || !IsAsciiDigit(s[p + |g|])
    ensures DigitRun(s, p) == |g|
  {
    forall k | p <= k < p + |g| ensures IsAsciiDigit(s[k]) {
      assert s[k] == s[p..p + |g|][k - p];
    }
    DigitRunOf(s, p, |g|);
  }

  /** Three `\d{1,3}\.` in a row and a run of one to three digits make a match. */
  lemma QuadFromGroups(s: string, p: nat, p1: nat, p2: nat, p3: nat, e: nat)
    requires GroupDotEnd(s, p) == Some(p1) && GroupDotEnd(s, p1) == Some(p2) && GroupDotEnd(s, p2) == Some(p3)
    requires p3 < e <= p3 + 3 && DigitRun(s, p3) == e - p3
    ensures Ipv4MatchAt(s, p) == Some(e)
  {
  }

  /** `findall` takes the leftmost match at or after `p`, then searches on from its end. */
  lemma FindIpv4FirstAt(s: string, p: nat, k: nat, e: nat)
    requires p <= k < |s| && Ipv4MatchAt(s, k) == Some(e)
    requires forall j :: p <= j < k ==> Ipv4MatchAt(s, j).None?
    ensures FindIpv4From(s, p) == [s[k..e]] + FindIpv4From(s, e)
  {
    FindIpv4SkipTo(s, p, k);
    FindIpv4Take(s, k, e);
  }

  /** Positions where nothing matches are passed over one by one. */
  lemma FindIpv4SkipTo(s: string, p: nat, k: nat)
    requires p <= k <= |s|
    requires forall j :: p <= j < k ==> Ipv4MatchAt(s, j).None?
    ensures FindIpv4From(s, p) == FindIpv4From(s, k)
  {
    var f := (j: nat) => FindIpv4From(s, j);
    forall j | p <= j < k ensures f(j) == f(j + 1) {
      FindIpv4Skip(s, j);
    }
    SameAlong(f, p, k);
  }

  /** A value that does not change from one position to the next is the same at both ends of the range. */
  lemma {:induction false} SameAlong<T>(f: nat -> T, p: nat, k: nat)
    requires p <= k
    requires forall j :: p <= j < k ==> f(j) == f(j + 1)
    ensures f(p) == f(k)
    decreases k - p
  {
    if p < k {
      SameAlong(f, p + 1, k);
    }
  }

  lemma FindIpv4Skip(s: string, p: nat)
    requires p < |s| && Ipv4MatchAt(s, p).None?
    ensures FindIpv4From(s, p) == FindIpv4From(s, p + 1)
  {
  }

  lemma FindIpv4Take(s: string, p: nat, e: nat)
    requires p < |s| && Ipv4MatchAt(s, p) == Some(e)
    ensures p < e <= |s| && FindIpv4From(s, p) == [s[p..e]] + FindIpv4From(s, e)
  {
  }

  /** Where the pattern matches nowhere from `p` on, nothing is found. */
  lemma {:induction false} NoIpv4(s: string, p: nat)
    requires forall j :: p <= j < |s| ==> Ipv4MatchAt(s, j).None?
    ensures FindIpv4From(s, p) == []
    decreases |s| - p
  {
    if p < |s| {
      NoIpv4(s, p + 1);
    }
  }

  /** A line with no digit has no targets. */
  lemma NoDigitNoTargets(text: string)
    requires forall k :: 0 <= k < |text| ==> !IsAsciiDigit(text[k])
    ensures ExtractTargets(text) == []
  {
    NoIpv4(text, 0);
  }

  /** No match starts at a character other than a digit. */
  lemma NoMatchOffDigit(s: string, j: nat)
    requires j < |s| && !IsAsciiDigit(s[j])
    ensures Ipv4MatchAt(s, j).None?
  {
  }

  /**
   * A dotted quad surrounded by text without digits, as in
   * `set rhosts 10.0.0.5`, is the one target extracted.
   */
  lemma OneTargetExtracted(pre: string, a: string, b: string, c: string, d: string, post: string)
    requires Group(a) && Group(b) && Group(c) && Group(d)
    requires forall k :: 0 <= k < |pre| ==> !IsAsciiDigit(pre[k])
    requires forall k :: 0 <= k < |post| ==> !IsAsciiDigit(post[k])
    ensures ExtractTargets(pre + Quad(a, b, c, d) + post) == [Quad(a, b, c, d)]
  {
    var q := Quad(a, b, c, d);
    var s := pre + q + post;
    var e := |pre| + |q|;
    assert s[|pre|..e] == q;
    assert e < |s| ==> s[e] == post[0];
    Ipv4MatchOf(s, |pre|, a, b, c, d);
    forall j | 0 <= j < |pre| ensures Ipv4MatchAt(s, j).None? {
      assert s[j] == pre[j];
      NoMatchOffDigit(s, j);
    }
    FindIpv4FirstAt(s, 0, |pre|, e);
    forall j | e <= j < |s| ensures Ipv4MatchAt(s, j).None? {
      assert s[j] == post[j - e];
      NoMatchOffDigit(s, j);
    }
    NoIpv4(s, e);
  }

  /** `findall(...)[0]` is the capture of the leftmost match at or after `p`. */
  lemma {:induction false} SessionIdFirstAt(s: string, p: nat, k: nat)
    requires p <= k < |s| && SessionIdAt(s, k).Some?
    requires forall j :: p <= j < k ==> SessionIdAt(s, j).None?
    ensures SessionIdFrom(s, p) == SessionIdAt(s, k)
    decreases k - p
  {
    if p < k {
      SessionIdFirstAt(s, p + 1, k);
    }
  }

  /** Where the pattern matches nowhere from `p` on, `findall(...)[0]` raises. */
  lemma {:induction false} NoSessionId(s: string, p: nat)
    requires forall j :: p <= j < |s| ==> SessionIdAt(s, j).None?
    ensures SessionIdFrom(s, p) == None
    decreases |s| - p
  {
    if p < |s| {
      NoSessionId(s, p + 1);
    }
  }

  /** A line without a digit, such as a bare `sessions -i`, names no session. */
  lemma NoDigitNoSession(lower: string)
    requires forall k :: 0 <= k < |lower| ==> !IsAsciiDigit(lower[k])
    ensures SessionId(lower) == None
  {
    forall j | 0 <= j < |lower| ensures SessionIdAt(lower, j).None? {
      var q := if OccursAt(lower, "sessions -i", j) then j + 11 else j + 10;
      var w := NonWordRun(lower, q);
      if q + w < |lower| {
        assert !IsAsciiDigit(lower[q + w]);
      }
    }
    NoSessionId(lower, 0);
  }

  /** `sessions -i`, one space and one to nine digits not followed by a digit, at the start of `s`: the digits are captured. */
  lemma SessionIdAtStart(s: string, n: string)
    requires 1 <= |n| <= 9 && forall k :: 0 <= k < |n| ==> IsAsciiDigit(n[k])
    requires OccursAt(s, "sessions -i", 0) && 12 + |n| <= |s| && s[11] == ' '
    requires forall k :: 0 <= k < |n| ==> s[12 + k] == n[k]
    requires 12 + |n| == |s| || !IsAsciiDigit(s[12 + |n|])
    ensures SessionIdAt(s, 0) == Some(n)
  {
    assert s[12] == n[0] && IsWordChar(s[12]);
    assert NonWordRun(s, 12) == 0;
    assert NonWordRun(s, 11) == 1;
    assert forall k :: 12 <= k < 12 + |n| ==> s[k] == n[k - 12];
    DigitRunOf(s, 12, |n|);
    assert s[12..12 + |n|] == n;
  }

  /** `sessions -i N`, with one to nine digits `N` and no digit right after them, names session `N`. */
  lemma SessionNumberCaptured(n: string, post: string)
    requires 1 <= |n| <= 9 && forall k :: 0 <= k < |n| ==> IsAsciiDigit(n[k])
    requires post == [] || !IsAsciiDigit(post[0])
    ensures SessionId("sessions -i " + n + post) == Some(n)
  {
    var s := "sessions -i " + n + post;
    assert s[..11] == "sessions -i";
    assert s[11] == ' ';
    assert forall k :: 0 <= k < |n| ==> s[12 + k] == n[k];
    assert 12 + |n| < |s| ==> s[12 + |n|] == post[0];
    SessionIdAtStart(s, n);
  }

  // ---------------------------------------------------------------------------
  // use (.*) over the lower-cased line
  // ---------------------------------------------------------------------------

  /**
   * `re.findall("use (.*)", lower)[0]`: what follows the first `use ` up to
   * the end of its line, or `None` (the `IndexError`) when there is no `use `.
   */
  function ModuleName(lower: string): (r: Option<string>)
    ensures r.None? <==> !Contains(lower, "use ")
    ensures r.Some? ==> '\n' !in r.value
    ensures r.Some? ==> exists i :: OccursAt(lower, "use " + r.value, i)
    ensures r.Some? ==> forall c :: c in r.value ==> c in lower
    ensures r.Some? ==>
      var i := IndexOf(lower, "use ").value;
      && OccursAt(lower, "use " + r.value, i)
      && (i + 4 + |r.value| == |lower| || lower[i + 4 + |r.value|] == '\n')
  {
    match IndexOf(lower, "use ")
    case None => None
    case Some(i) =>
      var m := Before(lower[i + 4..], '\n');
      assert |m| < |lower[i + 4..]| ==> lower[i + 4 + |m|] == lower[i + 4..][|m|];
      assert lower[i..i + 4 + |m|] == "use " + m;
      assert OccursAt(lower, "use " + m, i);
      assert forall k :: 0 <= k < |m| ==> m[k] == lower[i + 4 + k];
      Some(m)
  }

  /**
   * The module is the rest of the line after the first `use `: with no
   * `use ` before it, `use m` followed by the end or a newline gives `m`.
   */
  lemma ModuleNameOf(pre: string, m: string, post: string)
    requires forall j: nat :: !OccursAt(pre + "use", "use ", j)
    requires '\n' !in m && (post == [] || post[0] == '\n')
    ensures ModuleName(pre + "use " + m + post) == Some(m)
  {
    var s := pre + "use " + m + post;
    var i := |pre|;
    assert OccursAt(s, "use ", i) by {
      assert s[i..i + 4] == "use ";
    }
    forall j: nat | j < i ensures !OccursAt(s, "use ", j) {
      if OccursAt(s, "use ", j) {
        assert s[j..j + 4] == (pre + "use")[j..j + 4];
        assert OccursAt(pre + "use", "use ", j);
      }
    }
    IndexOfIs(s, "use ", i);
    var t := s[i + 4..];
    assert t == m + post;
    BeforeOf(t, m, post, '\n');
  }
}
