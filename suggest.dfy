/**
 * The top-level session's typing aids: `MsfAutoSuggest.get_suggestion`
 * (history, then the static wordlist, then the console's tab-completion)
 * and `MsfCompleter.get_completions` (the console's tab-completions cut at
 * the next `/`, each offered once).
 */
module Suggest {
  import opened Wrappers
  import opened PyStr

  predicate IsNewline(c: char) { c == '\n' }

  /** `document.text.rsplit("\n", 1)[-1]`: the line the cursor is on. */
  function CurrentLine(documentText: string): string {
    LastPart(documentText, IsNewline)
  }

  /** The position of the first wordlist entry that starts with `text`. */
  function FirstWordFor(wordlist: seq<string>, text: string): (r: Option<nat>)
    ensures r.Some? ==> r.value < |wordlist| && StartsWith(wordlist[r.value], text)
    ensures r.Some? ==> forall j :: 0 <= j < r.value ==> !StartsWith(wordlist[j], text)
    ensures r.None? ==> forall w :: w in wordlist ==> !StartsWith(w, text)
  {
    if wordlist == [] then None
    else if StartsWith(wordlist[0], text) then Some(0)
    else match FirstWordFor(wordlist[1..], text)
      case None => None
      case Some(i) => Some(i + 1)
  }

  /**
   * The suggestion chain: the history's suggestion if it has one; otherwise,
   * on a line that is not blank, the rest of the first wordlist word that
   * extends it, else the rest of the console's first tab-completion.
   * `tabs` is the console's tab-completion call.
   */
  function Suggestion(history: Option<string>, documentText: string, wordlist: seq<string>,
                      tabs: string -> seq<string>): Option<string> {
    if history.Some? then history
    else
      var text := CurrentLine(documentText);
      if Strip(text) == [] then None
      else match FirstWordFor(wordlist, text)
        case Some(i) => Some(wordlist[i][|text|..])
        case None =>
          var candidates := tabs(text);
          if candidates != [] then Some(SliceFrom(candidates[0], |text|)) else None
  }

  /** `get_suggestion`: the loop over the wordlist stops at the first word that extends the line. */
  method GetSuggestion(history: Option<string>, documentText: string, wordlist: seq<string>,
                       tabs: string -> seq<string>) returns (suggestion: Option<string>)
    ensures suggestion == Suggestion(history, documentText, wordlist, tabs)
  {
    suggestion := history;
    if suggestion.Some? {
      return;
    }
    var text := CurrentLine(documentText);
    if Strip(text) == [] {
      return;
    }
    var found := ScanWordlist(wordlist, text);
    if found.Some? {
      return Some(wordlist[found.value][|text|..]);
    }
    var candidates := tabs(text);
    if candidates != [] {
      suggestion := Some(SliceFrom(candidates[0], |text|));
    }
  }

  /** The `for word in self.wordlist` loop of `get_suggestion`, which breaks at the first match. */
  method ScanWordlist(wordlist: seq<string>, text: string) returns (found: Option<nat>)
    ensures found == FirstWordFor(wordlist, text)
  {
    var k := 0;
    while k < |wordlist|
      invariant 0 <= k <= |wordlist|
      invariant forall j :: 0 <= j < k ==> !StartsWith(wordlist[j], text)
    {
      if StartsWith(wordlist[k], text) {
        FirstWordIs(wordlist, text, k);
        return Some(k);
      }
      k := k + 1;
    }
    return None;
  }

  lemma {:induction false} FirstWordIs(wordlist: seq<string>, text: string, k: nat)
    requires k < |wordlist| && StartsWith(wordlist[k], text)
    requires forall j :: 0 <= j < k ==> !StartsWith(wordlist[j], text)
    ensures FirstWordFor(wordlist, text) == Some(k)
  {
    if k > 0 {
      FirstWordIs(wordlist[1..], text, k - 1);
    }
  }

  /** The history always wins, and a blank line gets nothing else. */
  lemma HistoryFirstNothingOnBlank(history: Option<string>, documentText: string, wordlist: seq<string>,
                                   tabs: string -> seq<string>)
    ensures history.Some? ==> Suggestion(history, documentText, wordlist, tabs) == history
    ensures Strip(CurrentLine(documentText)) == [] ==>
      Suggestion(history, documentText, wordlist, tabs) == history
  {
  }

  /**
   * Without a history match, a wordlist word that extends the line beats the
   * console: the suggestion completes the line to the first such word.
   */
  lemma WordlistBeforeConsole(documentText: string, wordlist: seq<string>, tabs: string -> seq<string>, w: string)
    requires Strip(CurrentLine(documentText)) != []
    requires w in wordlist && StartsWith(w, CurrentLine(documentText))
    ensures var s := Suggestion(None, documentText, wordlist, tabs);
      var text := CurrentLine(documentText);
      s.Some? && text + s.value in wordlist
      && exists i :: 0 <= i < |wordlist| && wordlist[i] == text + s.value
                     && forall j :: 0 <= j < i ==> !StartsWith(wordlist[j], text)
  {
    var text := CurrentLine(documentText);
    var i := FirstWordFor(wordlist, text).value;
    assert text + wordlist[i][|text|..] == wordlist[i];
  }

  /** Only with no history match and no wordlist word is the console's first completion used. */
  lemma ConsoleLast(documentText: string, wordlist: seq<string>, tabs: string -> seq<string>)
    requires Strip(CurrentLine(documentText)) != []
    requires forall w :: w in wordlist ==> !StartsWith(w, CurrentLine(documentText))
    ensures var text := CurrentLine(documentText);
      Suggestion(None, documentText, wordlist, tabs) ==
        if tabs(text) == [] then None else Some(SliceFrom(tabs(text)[0], |text|))
  {
  }

  // ---------------------------------------------------------------------------
  // get_completions
  // ---------------------------------------------------------------------------

  /** `Completion(text, start_position)`: insert `text` starting `-start_position` characters before the cursor. */
  datatype Completion = Completion(text: string, startPosition: int)

  predicate IsSpaceOrSlash(c: char) { c == ' ' || c == '/' }

  /** The word under the cursor as the completion spells it: `re.split("[ /]", a[:len(typed)])[-1]`. */
  function FirstHalf(candidate: string, typed: string): string {
    LastPart(SliceTo(candidate, |typed|), IsSpaceOrSlash)
  }

  /** From the cursor up to the next `/`: `a[len(typed):].split("/")[0]`. */
  function PartialCompletion(candidate: string, typed: string): string {
    Before(SliceFrom(candidate, |typed|), '/')
  }

  function CompletionFor(candidate: string, typed: string): Completion {
    var first := FirstHalf(candidate, typed);
    Completion(first + PartialCompletion(candidate, typed), -|first|)
  }

  /** The replaced word is the end of what was typed, back to its last space or `/`. */
  lemma FirstHalfEndsTyped(candidate: string, typed: string)
    requires StartsWith(candidate, typed)
    ensures var first := FirstHalf(candidate, typed);
      |first| <= |typed| && typed[|typed| - |first|..] == first
      && (forall ch :: ch in first ==> ch != ' ' && ch != '/')
      && (|first| < |typed| ==> IsSpaceOrSlash(typed[|typed| - |first| - 1]))
  {
    assert SliceTo(candidate, |typed|) == typed;
  }

  /** The inserted rest is the candidate from the cursor up to its next `/`, or to its end. */
  lemma PartialRunsToSlash(candidate: string, typed: string)
    requires StartsWith(candidate, typed)
    ensures var partial := PartialCompletion(candidate, typed);
      var stop := |typed| + |partial|;
      stop <= |candidate| && candidate[|typed|..stop] == partial && '/' !in partial
      && (stop == |candidate| || candidate[stop] == '/')
  {
    var partial := PartialCompletion(candidate, typed);
    assert SliceFrom(candidate, |typed|) == candidate[|typed|..];
    assert candidate[|typed|..][..|partial|] == partial;
  }

  /**
   * Accepting `c` replaces the last `-c.startPosition` typed characters, a
   * word without spaces or `/`, by `c.text`; the line that results extends
   * what was typed, is a prefix of the candidate, and stops at the
   * candidate's next `/` or at its end.
   */
  predicate Follows(candidate: string, typed: string, c: Completion) {
    var keep := |typed| + c.startPosition;
    0 <= keep <= |typed|
    && (forall ch :: ch in typed[keep..] ==> ch != ' ' && ch != '/')
    && var line := typed[..keep] + c.text;
    |typed| <= |line| <= |candidate| && line == candidate[..|line|]
    && '/' !in line[|typed|..]
    && (|line| == |candidate| || candidate[|line|] == '/')
  }

  /**
   * When the console's candidate extends what was typed, accepting its
   * completion (replacing the last `-startPosition` typed characters, a word
   * without spaces or `/`, by its text) leaves the line a prefix of the
   * candidate that stops at the candidate's next `/`, or at its end.
   */
  lemma AcceptingFollowsCandidate(candidate: string, typed: string)
    requires StartsWith(candidate, typed)
    ensures Follows(candidate, typed, CompletionFor(candidate, typed))
  {
    FirstHalfEndsTyped(candidate, typed);
    PartialRunsToSlash(candidate, typed);
    var first := FirstHalf(candidate, typed);
    var partial := PartialCompletion(candidate, typed);
    FollowsOf(candidate, typed, first, partial);
  }

  /** The completion built from the replaced word and the inserted rest follows the candidate. */
  lemma FollowsOf(candidate: string, typed: string, first: string, partial: string)
    requires StartsWith(candidate, typed)
    requires |first| <= |typed| && typed[|typed| - |first|..] == first
    requires forall ch :: ch in first ==> ch != ' ' && ch != '/'
    requires |typed| + |partial| <= |candidate| && candidate[|typed|..|typed| + |partial|] == partial
    requires '/' !in partial
    requires |typed| + |partial| == |candidate| || candidate[|typed| + |partial|] == '/'
    ensures Follows(candidate, typed, Completion(first + partial, -|first|))
  {
    assert candidate[..|typed|] == typed;
    SpliceFollows(candidate, typed, first, partial);
  }

  /** Replacing the typed word `first` by `first + partial` gives `typed + partial`, a prefix of the candidate. */
  lemma SpliceFollows(candidate: string, typed: string, first: string, partial: string)
    requires |typed| <= |candidate| && candidate[..|typed|] == typed
    requires |first| <= |typed| && typed[|typed| - |first|..] == first
    requires |typed| + |partial| <= |candidate| && candidate[|typed|..|typed| + |partial|] == partial
    ensures var line := typed[..|typed| - |first|] + (first + partial);
      line == candidate[..|typed| + |partial|] && line[|typed|..] == partial
  {
    var keep := |typed| - |first|;
    var line := typed[..keep] + (first + partial);
    assert typed[..keep] + first == typed;
    assert line == typed + partial;
    assert candidate[..|typed| + |partial|] == candidate[..|typed|] + candidate[|typed|..|typed| + |partial|];
  }

  /** The completion each of the console's candidates yields, in order. */
  function Candidates(full: seq<string>, typed: string): (cs: seq<Completion>)
    ensures |cs| == |full|
    ensures forall i :: 0 <= i < |full| ==> cs[i] == CompletionFor(full[i], typed)
  {
    seq(|full|, i requires 0 <= i < |full| => CompletionFor(full[i], typed))
  }

  /** `cs[i]` is the first candidate with its text. */
  predicate FirstWithText(cs: seq<Completion>, i: int) {
    0 <= i < |cs| && forall j :: 0 <= j < i ==> cs[j].text != cs[i].text
  }

  /** Where the text `t` first occurs among the completions, or `|cs|` when it does not. */
  function FirstIndex(cs: seq<Completion>, t: string): (r: nat)
    ensures r <= |cs|
    ensures r < |cs| ==> cs[r].text == t
    ensures forall j :: 0 <= j < r ==> cs[j].text != t
  {
    if cs == [] then 0
    else if cs[0].text == t then 0
    else 1 + FirstIndex(cs[1..], t)
  }

  /** The first candidate with a text is the index `FirstIndex` finds for that text. */
  lemma FirstIndexOfFirst(cs: seq<Completion>, i: int)
    requires FirstWithText(cs, i)
    ensures FirstIndex(cs, cs[i].text) == i
  {
  }

  /** The offers come in the order of the candidates that first produce their texts. */
  predicate InOrder(cs: seq<Completion>, out: seq<Completion>) {
    forall k1, k2 :: 0 <= k1 < k2 < |out| ==> FirstIndex(cs, out[k1].text) < FirstIndex(cs, out[k2].text)
  }

  /** No text is offered twice. */
  predicate DistinctTexts(out: seq<Completion>) {
    forall i, j :: 0 <= i < j < |out| ==> out[i].text != out[j].text
  }

  /** Every offer is the first of `cs[..n]` with its text. */
  ghost predicate OffersFirsts(cs: seq<Completion>, out: seq<Completion>, n: int) {
    forall k :: 0 <= k < |out| ==> exists i :: 0 <= i < n && FirstWithText(cs, i) && out[k] == cs[i]
  }

  /** Every text of `cs[..n]` is among `texts`. */
  predicate CoversPrefix(cs: seq<Completion>, texts: seq<string>, n: int)
    requires 0 <= n <= |cs|
  {
    forall i :: 0 <= i < n ==> cs[i].text in texts
  }

  /** The loop's state after `cs[..n]`: `texts` mirrors `out`, whose offers are distinct, first, and cover `cs[..n]`. */
  ghost predicate Progress(cs: seq<Completion>, out: seq<Completion>, texts: seq<string>, n: int) {
    0 <= n <= |cs| && |texts| == |out|
    && (forall k :: 0 <= k < |out| ==> texts[k] == out[k].text)
    && DistinctTexts(out) && OffersFirsts(cs, out, n) && CoversPrefix(cs, texts, n)
    && InOrder(cs, out) && (forall k :: 0 <= k < |out| ==> FirstIndex(cs, out[k].text) < n)
  }

  /** A candidate whose text is already offered is skipped. */
  lemma SkipSeen(cs: seq<Completion>, out: seq<Completion>, texts: seq<string>, n: nat)
    requires Progress(cs, out, texts, n) && n < |cs| && cs[n].text in texts
    ensures Progress(cs, out, texts, n + 1)
  {
    forall k | 0 <= k < |out| ensures exists i :: 0 <= i < n + 1 && FirstWithText(cs, i) && out[k] == cs[i] {
      var i :| 0 <= i < n && FirstWithText(cs, i) && out[k] == cs[i];
    }
  }

  /** Appending the first completion with a new text keeps the offers distinct and first. */
  lemma OfferNew(cs: seq<Completion>, out: seq<Completion>, texts: seq<string>, n: nat)
    requires Progress(cs, out, texts, n) && n < |cs| && cs[n].text !in texts
    ensures Progress(cs, out + [cs[n]], texts + [cs[n].text], n + 1)
  {
    assert FirstWithText(cs, n);
    FirstIndexOfFirst(cs, n);
    var out' := out + [cs[n]];
    forall k | 0 <= k < |out'|
      ensures exists i :: 0 <= i < n + 1 && FirstWithText(cs, i) && out'[k] == cs[i]
    {
      if k == |out| {
        assert out'[k] == cs[n];
      } else {
        assert out'[k] == out[k];
      }
    }
    forall i, j | 0 <= i < j < |out'| ensures out'[i].text != out'[j].text {
      if j == |out| {
        assert out'[i].text == texts[i];
      }
    }
    forall k1, k2 | 0 <= k1 < k2 < |out'|
      ensures FirstIndex(cs, out'[k1].text) < FirstIndex(cs, out'[k2].text)
    {
      assert out'[k1] == out[k1];
      if k2 < |out| {
        assert out'[k2] == out[k2];
      }
    }
  }

  lemma EveryCandidateOffered(full: seq<string>, typed: string, out: seq<Completion>, texts: seq<string>)
    requires Progress(Candidates(full, typed), out, texts, |full|)
    ensures forall a :: a in full ==> exists k :: 0 <= k < |out| && out[k].text == CompletionFor(a, typed).text
  {
    var cs := Candidates(full, typed);
    forall a | a in full ensures exists k :: 0 <= k < |out| && out[k].text == CompletionFor(a, typed).text {
      var i :| 0 <= i < |full| && full[i] == a;
      assert cs[i].text in texts;
      var k :| 0 <= k < |texts| && texts[k] == cs[i].text;
    }
  }

  /**
   * `get_completions`: `tabs(typed)` are the console's completions. Every
   * text is offered once, by the first candidate that produces it, in the
   * order of those candidates, and every candidate's text is offered.
   */
  method GetCompletions(typed: string, tabs: string -> seq<string>) returns (out: seq<Completion>)
    ensures DistinctTexts(out)
    ensures InOrder(Candidates(tabs(typed), typed), out)
    ensures OffersFirsts(Candidates(tabs(typed), typed), out, |tabs(typed)|)
    ensures forall a :: a in tabs(typed) ==> exists k :: 0 <= k < |out| && out[k].text == CompletionFor(a, typed).text
  {
    var full := tabs(typed);
    ghost var cs := Candidates(full, typed);
    var alreadySuggested: seq<string> := [];
    out := [];
    for n := 0 to |full|
      invariant Progress(cs, out, alreadySuggested, n)
    {
      var comp := CompletionFor(full[n], typed);
      assert comp == cs[n];
      if comp.text in alreadySuggested {
        SkipSeen(cs, out, alreadySuggested, n);
        continue;
      }
      OfferNew(cs, out, alreadySuggested, n);
      alreadySuggested := alreadySuggested + [comp.text];
      out := out + [comp];
    }
    EveryCandidateOffered(full, typed, out, alreadySuggested);
  }
}
