/**
 * The earlier `parseconfig`: only lines holding a `#` are read, a line with
 * nothing before its `#` is skipped, and a missing file is not caught.
 */
module LegacyConfig {
  import opened Wrappers
  import opened PyStr
  import opened Config

  /** What one line sets: lines without `#` set nothing; the others are read as in the packaged version. */
  function LegacyLineEntry(line: string): Result<Option<(string, ConfigValue)>, ConfigError> {
    if '#' in line then LineEntry(line) else Ok(None)
  }

  /** The earlier `parseconfig`: `FileNotFoundError` propagates. */
  function LegacyParseConfigSpec(file: ConfigFile): Result<Options, ConfigError> {
    match file
    case Missing => Err(MissingFile)
    case Present(text) => OptionsOf(FileLines(text), LegacyLineEntry)
  }

  /** The `for line in infi` loop of the earlier `parseconfig`. */
  method LegacyParseLines(lines: seq<string>) returns (r: Result<Options, ConfigError>)
    ensures r == OptionsOf(lines, LegacyLineEntry)
  {
    var options: Options := map[];
    for n := 0 to |lines|
      invariant OptionsOf(lines[..n], LegacyLineEntry) == Ok(options)
    {
      var line := lines[n];
      assert lines[..n + 1][..n] == lines[..n];
      if '#' in line {
        var opt := Before(line, '#');
        if |opt| > 0 {
          var split := SplitPair(opt, ':');
          if split.None? {
            ErrorSticks(lines, n + 1, LegacyLineEntry);
            return Err(MalformedOption(opt));
          }
          var (param, val) := split.value;
          options := options[Strip(param) := Coerce(CleanValue(val))];
        }
      }
    }
    assert lines[..|lines|] == lines;
    return Ok(options);
  }

  method LegacyParseConfig(file: ConfigFile) returns (r: Result<Options, ConfigError>)
    ensures r == LegacyParseConfigSpec(file)
  {
    match file {
      case Missing =>
        return Err(MissingFile);
      case Present(text) =>
        r := LegacyParseLines(FileLines(text));
    }
  }

  /** A line without `#` never changes the earlier version's result, wherever it stands. */
  lemma LegacyIgnoresUncommented(a: seq<string>, w: string, b: seq<string>)
    requires '#' !in w
    ensures OptionsOf(a + [w] + b, LegacyLineEntry) == OptionsOf(a + b, LegacyLineEntry)
  {
    SkipNothingLine(a, w, b, LegacyLineEntry);
  }

  /**
   * On a file whose every line holds a `#`, the two versions agree; they
   * differ on a missing file, which only the packaged version turns into an
   * empty dictionary.
   */
  lemma VersionsAgreeOnCommentedLines(lines: seq<string>)
    requires forall l :: l in lines ==> '#' in l
    ensures OptionsOf(lines, LegacyLineEntry) == OptionsOf(lines, LineEntry)
    ensures LegacyParseConfigSpec(Missing) == Err(MissingFile) && ParseConfigSpec(Missing) == Ok(map[])
  {
    SameReadingSameOptions(lines, LegacyLineEntry, LineEntry);
  }

  /**
   * An uncommented `key:value` line, which the packaged version reads, sets
   * nothing in the earlier one.
   */
  lemma UncommentedOptionOnlyInPackaged(key: string, v: ConfigValue)
    requires PlainKey(key) && PlainValue(v)
    ensures var line := key + ":" + ValueText(v) + "\n";
      LegacyLineEntry(line) == Ok(None) && LineEntry(line) == Ok(Some((key, v)))
  {
    LineRoundTrip(key, v);
    ValueTextPlain(v);
    LineSplits(key, ValueText(v));
  }
}
