/**
 * The earlier prompt splitter, `get_prompt_text`: the same three searches as
 * the packaged one, but a prompt without `msf` still gets six segments, the
 * console tag falling back to `msf`.
 */
module LegacyPromptStyles {
  import opened Wrappers
  import opened PyStr
  import opened PromptStyles

  /** The console tag, or `msf` when the prompt has none. */
  function TagOrDefault(raw: string): (r: string)
    ensures r == "msf" || (|r| == 4 && r[..3] == "msf" && IsAsciiDigit(r[3]))
    ensures !Contains(raw, "msf") ==> r == "msf"
  {
    match MsfTag(raw)
    case Some(msf) => msf
    case None => "msf"
  }

  /** `get_prompt_text`. */
  function PromptText(raw: string): seq<Segment> {
    Segments(TagOrDefault(raw), Premodule(raw), ModuleText(raw))
  }

  /**
   * Every prompt gives six segments: the console tag, the premodule, the
   * parentheses exactly when there is a module, the module and ` > `.
   */
  lemma PromptTextShape(raw: string)
    ensures var p := PromptText(raw);
      |p| == 6 && p[0].style == "class:msf" && StartsWith(p[0].text, "msf") && p[5] == Segment("class:plain", " > ")
      && p[1] == Segment("class:plain", Premodule(raw))
      && p[3] == Segment("class:module", ModuleText(raw))
      && (p[2].text == "(" <==> p[3].text != []) && (p[4].text == ")" <==> p[3].text != [])
      && (p[2].text == "" <==> p[3].text == []) && (p[4].text == "" <==> p[3].text == [])
  {
  }

  /**
   * The two splitters agree whenever the prompt names the console; on any
   * other text the earlier one still styles it as a console prompt, where the
   * packaged one passes it through.
   */
  lemma SplittersAgree(raw: string)
    ensures Contains(raw, "msf") ==> PromptText(raw) == FormattedPrompt(raw)
    ensures !Contains(raw, "msf") ==>
      FormattedPrompt(raw) == [Segment("", raw)] && PromptText(raw)[0] == Segment("class:msf", "msf")
  {
  }

  /** A shell prompt such as `$ ` is shown by the earlier splitter as an msf prompt with nothing inside. */
  lemma ShellPromptStyledAsConsole(raw: string)
    requires !Contains(raw, "msf") && '(' !in raw
    ensures PromptText(raw) ==
      [Segment("class:msf", "msf"), Segment("class:plain", ""), Segment("class:plain", ""),
       Segment("class:module", ""), Segment("class:plain", ""), Segment("class:plain", " > ")]
  {
    NoPremodule(raw, 0);
    forall j: nat ensures !GroupAt(raw, j) {
      if j < |raw| {
        assert raw[j] in raw;
      }
    }
    NoGroup(raw, 0);
  }

  lemma {:induction false} NoPremodule(raw: string, i: nat)
    requires forall j: nat :: i <= j ==> !PremoduleAt(raw, j)
    ensures PremoduleFrom(raw, i) == None
    decreases |raw| - i
  {
    if i < |raw| {
      NoPremodule(raw, i + 1);
    }
  }

  lemma {:induction false} NoGroup(raw: string, i: nat)
    requires forall j: nat :: i <= j ==> !GroupAt(raw, j)
    ensures GroupFrom(raw, i) == None
    decreases |raw| - i
  {
    if i < |raw| {
      NoGroup(raw, i + 1);
    }
  }
}
