/**
 * The packaged prompt splitter, `get_formatted_prompt`: the console's raw
 * prompt (`msf5 exploit(multi/handler) > `) becomes six styled segments, the
 * console tag, the word before the module, the module between parentheses
 * and the closing ` > `; a prompt without `msf` (an interactive shell) is
 * shown unstyled.
 */
module PromptStyles {
  import opened Wrappers
  import opened PyStr

  /** A `(style class, text)` pair of a prompt_toolkit formatted text. */
  datatype Segment = Segment(style: string, text: string)

  // ---------------------------------------------------------------------------
  // msf[0-9]?
  // ---------------------------------------------------------------------------

  /** `re.findall("msf[0-9]?", raw)[0]`: the first `msf`, with the digit that follows it if any. */
  function MsfTag(raw: string): (r: Option<string>)
    ensures r.None? <==> !Contains(raw, "msf")
    ensures r.Some? ==> exists i :: IndexOf(raw, "msf") == Some(i) && OccursAt(raw, r.value, i)
    ensures r.Some? ==> (r.value == "msf" || (|r.value| == 4 && r.value[..3] == "msf" && IsAsciiDigit(r.value[3])))
    ensures r.Some? ==> var i := IndexOf(raw, "msf").value;
      (|r.value| == 4 <==> i + 3 < |raw| && IsAsciiDigit(raw[i + 3]))
  {
    match IndexOf(raw, "msf")
    case None => None
    case Some(i) =>
      if i + 3 < |raw| && IsAsciiDigit(raw[i + 3]) then
        assert raw[i..i + 4][..3] == raw[i..i + 3];
        Some(raw[i..i + 4])
      else Some(raw[i..i + 3])
  }

  // ---------------------------------------------------------------------------
  // ( [\w]+)\(
  // ---------------------------------------------------------------------------

  /** The number of word characters from `i` on. */
  function WordRun(s: string, i: nat): (n: nat)
    ensures i + n <= |s| || (i >= |s| && n == 0)
    ensures forall k :: i <= k < i + n ==> IsWordChar(s[k])
    ensures i + n < |s| ==> !IsWordChar(s[i + n])
    decreases |s| - i
  {
    if i < |s| && IsWordChar(s[i]) then 1 + WordRun(s, i + 1) else 0
  }

  /** `( [\w]+)\(` matches at `i`: a space, at least one word character, and `(` right after the run. */
  predicate PremoduleAt(s: string, i: nat) {
    i < |s| && s[i] == ' ' && WordRun(s, i + 1) > 0
    && i + 1 + WordRun(s, i + 1) < |s| && s[i + 1 + WordRun(s, i + 1)] == '('
  }

  /** The leftmost match's group from `i` on. */
  function PremoduleFrom(s: string, i: nat): (r: Option<string>)
    ensures r.Some? ==> |r.value| >= 2 && r.value[0] == ' ' && forall k :: 1 <= k < |r.value| ==> IsWordChar(r.value[k])
    decreases |s| - i
  {
    if i >= |s| then None
    else if PremoduleAt(s, i) then
      var n := WordRun(s, i + 1);
      Some(s[i..i + 1 + n])
    else PremoduleFrom(s, i + 1)
  }

  /** `re.findall("( [\w]+)\(", raw)[0]`, or `""` when it raises. */
  function Premodule(raw: string): (r: string)
    ensures r != [] ==> r[0] == ' ' && |r| >= 2 && forall k :: 1 <= k < |r| ==> IsWordChar(r[k])
  {
    match PremoduleFrom(raw, 0)
    case Some(g) => g
    case None => ""
  }

  /** Finding the first match from `i` skips positions where none starts. */
  lemma {:induction false} PremoduleFirstAt(s: string, i: nat, k: nat)
    requires i <= k && PremoduleAt(s, k) && forall j :: i <= j < k ==> !PremoduleAt(s, j)
    ensures PremoduleFrom(s, i) == Some(s[k..k + 1 + WordRun(s, k + 1)])
    decreases k - i
  {
    if i < k {
      PremoduleFirstAt(s, i + 1, k);
    }
  }

  // ---------------------------------------------------------------------------
  // \((.*?)\)
  // ---------------------------------------------------------------------------

  /** `\((.*?)\)` matches at `i`: a `(` whose next `)` comes before any newline. */
  predicate GroupAt(s: string, i: nat) {
    i < |s| && s[i] == '(' && ')' in s[i + 1..] && '\n' !in Before(s[i + 1..], ')')
  }

  /** The leftmost match's group from `i` on: the text up to the next `)`. */
  function GroupFrom(s: string, i: nat): (r: Option<string>)
    ensures r.Some? ==> ')' !in r.value && '\n' !in r.value
    decreases |s| - i
  {
    if i >= |s| then None
    else if GroupAt(s, i) then Some(Before(s[i + 1..], ')'))
    else GroupFrom(s, i + 1)
  }

  lemma {:induction false} GroupFirstAt(s: string, i: nat, k: nat)
    requires i <= k && GroupAt(s, k) && forall j :: i <= j < k ==> !GroupAt(s, j)
    ensures GroupFrom(s, i) == Some(Before(s[k + 1..], ')'))
    decreases k - i
  {
    if i < k {
      GroupFirstAt(s, i + 1, k);
    }
  }

  /** A character of Python's `string.printable`: printable ASCII and the five ASCII whitespace controls. */
  predicate IsPrintable(c: char) {
    (' ' <= c <= '~') || ('\t' <= c <= '\r')
  }

  /** `"".join([x for x in s if x in string.printable])`. */
  function Printable(s: string): (r: string)
    ensures forall c :: c in r <==> c in s && IsPrintable(c)
    ensures |r| <= |s|
  {
    if s == [] then []
    else (if IsPrintable(s[0]) then [s[0]] else []) + Printable(s[1..])
  }

  lemma {:induction false} PrintableKeeps(s: string)
    requires forall c :: c in s ==> IsPrintable(c)
    ensures Printable(s) == s
  {
    if s != [] {
      PrintableKeeps(s[1..]);
      assert s == [s[0]] + s[1..];
    }
  }

  /** The filter works piece by piece: the kept characters of `a + b` are those of `a`, then those of `b`. */
  lemma {:induction false} PrintableConcat(a: string, b: string)
    ensures Printable(a + b) == Printable(a) + Printable(b)
  {
    if a != [] {
      assert (a + b)[0] == a[0] && (a + b)[1..] == a[1..] + b;
      PrintableConcat(a[1..], b);
    } else {
      assert a + b == b;
    }
  }

  /** One character is kept exactly when it is printable. */
  lemma PrintableChar(c: char)
    ensures Printable([c]) == if IsPrintable(c) then [c] else []
  {
    assert [c][1..] == [];
  }

  /** The module: the first parenthesised text, cut to printable characters, or `""`. */
  function ModuleText(raw: string): (r: string)
    ensures forall c :: c in r ==> IsPrintable(c) && c != ')' && c != '\n'
  {
    match GroupFrom(raw, 0)
    case Some(g) => Printable(g)
    case None => ""
  }

  // ---------------------------------------------------------------------------
  // The segments
  // ---------------------------------------------------------------------------

  /** The six segments built from the console tag, the premodule and the module. */
  function Segments(msf: string, premodule: string, moduleText: string): seq<Segment> {
    var open := if |moduleText| > 0 then "(" else "";
    var close := if |moduleText| > 0 then ")" else "";
    [Segment("class:msf", msf), Segment("class:plain", premodule), Segment("class:plain", open),
     Segment("class:module", moduleText), Segment("class:plain", close), Segment("class:plain", " > ")]
  }

  /** `get_formatted_prompt`. */
  function FormattedPrompt(raw: string): seq<Segment> {
    match MsfTag(raw)
    case None => [Segment("", raw)]
    case Some(msf) => Segments(msf, Premodule(raw), ModuleText(raw))
  }

  /**
   * A prompt without `msf` is shown as it came, unstyled; any other gives
   * six segments, the first the console tag and the last ` > `, with
   * parentheses exactly when there is a module to show.
   */
  lemma FormattedPromptShape(raw: string)
    ensures !Contains(raw, "msf") ==> FormattedPrompt(raw) == [Segment("", raw)]
    ensures Contains(raw, "msf") ==>
      var p := FormattedPrompt(raw);
      |p| == 6 && p[0].style == "class:msf" && StartsWith(p[0].text, "msf") && p[5] == Segment("class:plain", " > ")
      && p[3].style == "class:module" && p[3].text == ModuleText(raw)
      && (p[2].text == "(" <==> p[3].text != []) && (p[4].text == ")" <==> p[3].text != [])
      && (p[2].text == "" <==> p[3].text == []) && (p[4].text == "" <==> p[3].text == [])
  {
  }

  // ---------------------------------------------------------------------------
  // Reading back a prompt of the console's shape
  // ---------------------------------------------------------------------------

  /** Where the console shows a version digit after `msf`, or none. */
  predicate VersionTag(v: string) { v == [] || (|v| == 1 && IsAsciiDigit(v[0])) }

  /** A module name as the console shows it between parentheses. */
  predicate ModuleShape(m: string) {
    m != [] && forall c :: c in m ==> IsPrintable(c) && c != ')' && c != '(' && c != '\n'
  }

  predicate WordShape(w: string) {
    w != [] && forall c :: c in w ==> IsWordChar(c)
  }

  /** The raw prompt `msf5 exploit(multi/handler) > ` from its parts. */
  function ConsolePrompt(v: string, word: string, m: string): string {
    "msf" + v + " " + word + "(" + m + ")" + " > "
  }

  lemma WordRunOf(s: string, i: nat, n: nat)
    requires i + n <= |s| && forall k :: i <= k < i + n ==> IsWordChar(s[k])
    requires i + n < |s| ==> !IsWordChar(s[i + n])
    ensures WordRun(s, i) == n
    decreases n
  {
    if n > 0 {
      WordRunOf(s, i + 1, n - 1);
    }
  }

  /** Where each part sits in the raw prompt. */
  lemma ConsoleLayout(v: string, word: string, m: string)
    ensures var raw := ConsolePrompt(v, word, m);
      var p := 3 + |v|;
      var q := p + 1 + |word|;
      |raw| == q + |m| + 5 && raw[..p] == "msf" + v && raw[p] == ' '
      && raw[p + 1..q] == word && raw[q] == '(' && raw[q + 1..] == m + [')'] + " > "
  {
    var raw := ConsolePrompt(v, word, m);
    var p := 3 + |v|;
    var q := p + 1 + |word|;
    var tail := m + [')'] + " > ";
    var mid := [' '] + word + ['('] + tail;
    assert raw == ("msf" + v) + mid;
    assert raw[..p] == "msf" + v;
    assert raw[p..] == mid;
    assert mid[1..] == word + ['('] + tail;
    assert raw[p + 1..] == word + ['('] + tail;
    assert raw[p + 1..q] == word;
    assert raw[q..] == ['('] + tail;
    assert raw[q + 1..] == tail;
  }

  lemma ConsoleTag(v: string, word: string, m: string)
    requires VersionTag(v)
    ensures MsfTag(ConsolePrompt(v, word, m)) == Some("msf" + v)
  {
    var raw := ConsolePrompt(v, word, m);
    ConsoleLayout(v, word, m);
    assert raw[..3] == "msf" by {
      assert raw[..3] == raw[..3 + |v|][..3];
    }
    assert OccursAt(raw, "msf", 0);
    assert IndexOf(raw, "msf") == Some(0);
    if v == [] {
      assert raw[3] == ' ';
      assert "msf" + v == "msf";
    } else {
      assert raw[3] == ("msf" + v)[3] == v[0];
    }
  }

  /** The premodule of any text with a space, a word and `(` at `p`, and no space before. */
  lemma PremoduleOfLayout(raw: string, p: nat, word: string)
    requires WordShape(word) && p + 1 + |word| < |raw|
    requires ' ' !in raw[..p] && raw[p] == ' ' && raw[p + 1..p + 1 + |word|] == word && raw[p + 1 + |word|] == '('
    ensures Premodule(raw) == " " + word
  {
    var q := p + 1 + |word|;
    forall k | p + 1 <= k < q ensures IsWordChar(raw[k]) {
      assert raw[k] == raw[p + 1..q][k - p - 1];
    }
    WordRunOf(raw, p + 1, |word|);
    assert PremoduleAt(raw, p);
    forall j | 0 <= j < p ensures !PremoduleAt(raw, j) {
      assert raw[j] == raw[..p][j];
    }
    PremoduleFirstAt(raw, 0, p);
    assert raw[p..q] == [' '] + raw[p + 1..q];
  }

  /** The module of any text with `(`, a module and `)` at `q`, and no `(` before. */
  lemma ModuleOfLayout(raw: string, q: nat, m: string, tail: string)
    requires ModuleShape(m) && q < |raw|
    requires '(' !in raw[..q] && raw[q] == '(' && raw[q + 1..] == m + [')'] + tail
    ensures ModuleText(raw) == m
  {
    var rest := raw[q + 1..];
    SplitAtFirst(m, tail, ')');
    assert rest[|m|] == ')';
    assert GroupAt(raw, q);
    forall j | 0 <= j < q ensures !GroupAt(raw, j) {
      assert raw[j] == raw[..q][j];
    }
    GroupFirstAt(raw, 0, q);
    PrintableKeeps(m);
  }

  lemma ConsolePremodule(v: string, word: string, m: string)
    requires VersionTag(v) && WordShape(word)
    ensures Premodule(ConsolePrompt(v, word, m)) == " " + word
  {
    var raw := ConsolePrompt(v, word, m);
    ConsoleLayout(v, word, m);
    var p := 3 + |v|;
    assert ' ' !in raw[..p] by {
      assert raw[..p] == "msf" + v;
    }
    PremoduleOfLayout(raw, p, word);
  }

  lemma ConsoleModule(v: string, word: string, m: string)
    requires VersionTag(v) && WordShape(word) && ModuleShape(m)
    ensures ModuleText(ConsolePrompt(v, word, m)) == m
  {
    var raw := ConsolePrompt(v, word, m);
    ConsoleLayout(v, word, m);
    var p := 3 + |v|;
    var q := p + 1 + |word|;
    assert raw[..q] == raw[..p] + [' '] + raw[p + 1..q];
    assert '(' !in raw[..q];
    ModuleOfLayout(raw, q, m, " > ");
  }

  /**
   * A prompt of the console's shape is split back into its parts: the tag
   * with its version, the word before the module with its leading space, and
   * the module between shown parentheses.
   */
  lemma ConsolePromptRoundTrip(v: string, word: string, m: string)
    requires VersionTag(v) && WordShape(word) && ModuleShape(m)
    ensures FormattedPrompt(ConsolePrompt(v, word, m)) ==
      [Segment("class:msf", "msf" + v), Segment("class:plain", " " + word), Segment("class:plain", "("),
       Segment("class:module", m), Segment("class:plain", ")"), Segment("class:plain", " > ")]
  {
    ConsoleTag(v, word, m);
    ConsolePremodule(v, word, m);
    ConsoleModule(v, word, m);
  }
}
