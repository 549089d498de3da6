/**
 * `parseconfig` of the packaged program: a file of `parameter:value #comment`
 * lines becomes a dictionary whose values are coerced to `int` or `bool`
 * where they read as one. The file is its text, or `Missing` when opening it
 * raises `FileNotFoundError`.
 */
module Config {
  import opened Wrappers
  import opened PyStr

  datatype ConfigValue = IntVal(i: int) | BoolVal(b: bool) | StrVal(s: string)

  /** `MalformedOption`: the `ValueError` of `param, val = opt.split(":")`. */
  datatype ConfigError = MalformedOption(opt: string) | MissingFile

  datatype ConfigFile = Missing | Present(text: string)

  type Options = map<string, ConfigValue>

  // ---------------------------------------------------------------------------
  // Lines of a text file
  // ---------------------------------------------------------------------------

  function Concat(lines: seq<string>): string {
    if lines == [] then [] else lines[0] + Concat(lines[1..])
  }

  /**
   * The lines `for line in file` yields: each keeps its `\n`, the last one
   * may lack it, and none is empty.
   */
  function FileLines(text: string): (lines: seq<string>)
    ensures forall l :: l in lines ==> l != [] && '\n' !in l[..|l| - 1]
    ensures Concat(lines) == text
    decreases |text|
  {
    if text == [] then []
    else if '\n' !in text then
      assert [text][1..] == [];
      [text]
    else
      var line := Before(text, '\n') + "\n";
      var rest := After(text, '\n');
      assert line[..|line| - 1] == Before(text, '\n');
      var lines := [line] + FileLines(rest);
      assert lines[1..] == FileLines(rest);
      lines
  }

  // ---------------------------------------------------------------------------
  // int() and the value coercion
  // ---------------------------------------------------------------------------

  /** The digits `int()` accepts in base 10: `[0-9](_?[0-9])*`. */
  predicate DigitGroups(s: string) {
    s != [] && IsAsciiDigit(s[0]) && IsAsciiDigit(s[|s| - 1])
    && (forall k :: 0 <= k < |s| ==> IsAsciiDigit(s[k]) || s[k] == '_')
    && (forall k :: 0 <= k < |s| - 1 ==> !(s[k] == '_' && s[k + 1] == '_'))
  }

  function DigitValue(c: char): nat
    requires IsAsciiDigit(c)
  {
    c as int - '0' as int
  }

  /** The number the digits spell, underscores skipped. */
  function DigitsValue(s: string): nat
    requires forall k :: 0 <= k < |s| ==> IsAsciiDigit(s[k]) || s[k] == '_'
  {
    if s == [] then 0
    else if s[|s| - 1] == '_' then DigitsValue(s[..|s| - 1])
    else DigitsValue(s[..|s| - 1]) * 10 + DigitValue(s[|s| - 1])
  }

  /** `int(s)`, or `None` where it raises `ValueError`. */
  function PyInt(s: string): Option<int> {
    var t := Strip(s);
    if t != [] && (t[0] == '+' || t[0] == '-') then
      if DigitGroups(t[1..]) then
        var magnitude: int := DigitsValue(t[1..]);
        Some(if t[0] == '-' then -magnitude else magnitude)
      else None
    else if DigitGroups(t) then Some(DigitsValue(t))
    else None
  }

  function DigitChar(d: nat): char
    requires d < 10
  {
    ('0' as int + d) as char
  }

  function NatText(n: nat): (s: string)
    ensures s != [] && forall k :: 0 <= k < |s| ==> IsAsciiDigit(s[k])
  {
    if n < 10 then [DigitChar(n)] else NatText(n / 10) + [DigitChar(n % 10)]
  }

  /** `str(n)` for an `int`. */
  function DecimalText(n: int): string {
    if n < 0 then "-" + NatText(-n) else NatText(n)
  }

  lemma {:induction false} NatTextValue(n: nat)
    ensures DigitsValue(NatText(n)) == n
  {
    var s := NatText(n);
    if n >= 10 {
      NatTextValue(n / 10);
      assert s[..|s| - 1] == NatText(n / 10);
    }
  }

  lemma NatTextGroups(m: nat)
    ensures DigitGroups(NatText(m))
  {
    var t := NatText(m);
    assert IsAsciiDigit(t[0]) && IsAsciiDigit(t[|t| - 1]);
  }

  /** `int()` reads digits without a sign as their value. */
  lemma UnsignedInt(t: string)
    requires DigitGroups(t)
    ensures PyInt(t) == Some(DigitsValue(t))
  {
    StripByKeeps(t, IsSpace);
    assert Strip(t) == t;
  }

  /** `int()` reads digits after a `-` as the negated value. */
  lemma NegativeInt(t: string)
    requires DigitGroups(t)
    ensures PyInt("-" + t) == Some(-(DigitsValue(t) as int))
  {
    var s := "-" + t;
    assert s[0] == '-' && s[1..] == t && s[|s| - 1] == t[|t| - 1];
    StripByKeeps(s, IsSpace);
    assert Strip(s) == s;
  }

  /** `int(str(n)) == n`. */
  lemma IntRoundTrip(n: int)
    ensures PyInt(DecimalText(n)) == Some(n)
  {
    var m: nat := if n < 0 then -n else n;
    NatTextValue(m);
    NatTextGroups(m);
    if n < 0 {
      assert DecimalText(n) == "-" + NatText(m);
      NegativeInt(NatText(m));
    } else {
      assert DecimalText(n) == NatText(m);
      UnsignedInt(NatText(m));
    }
  }

  /** The value's text becomes an `int` if `int()` accepts it, else `True`/`False` a `bool`. */
  function Coerce(val: string): ConfigValue {
    match PyInt(val)
    case Some(n) => IntVal(n)
    case None =>
      if val == "True" then BoolVal(true)
      else if val == "False" then BoolVal(false)
      else StrVal(val)
  }

  // ---------------------------------------------------------------------------
  // One line
  // ---------------------------------------------------------------------------

  predicate IsQuote(c: char) { c == '\'' || c == '"' }

  /** The part of the line before its first `#`, or the whole line. */
  function OptionText(line: string): (opt: string)
    ensures '#' !in opt
  {
    if '#' in line then Before(line, '#') else line
  }

  /**
   * What one line sets: nothing when the text before `#` is empty; else the
   * trimmed parameter and the coerced value, trimmed of whitespace and then
   * of quotes; a `ValueError` unless there is exactly one `:`.
   */
  function LineEntry(line: string): Result<Option<(string, ConfigValue)>, ConfigError> {
    var opt := OptionText(line);
    if opt == [] then Ok(None) else ReadOption(opt)
  }

  /** `param, val = opt.split(":")` and the trimming and coercion that follow. */
  function ReadOption(opt: string): Result<Option<(string, ConfigValue)>, ConfigError> {
    match SplitPair(opt, ':')
    case None => Err(MalformedOption(opt))
    case Some((param, val)) => Ok(Some((Strip(param), Coerce(CleanValue(val)))))
  }

  /** `val.strip().strip("'\"")`. */
  function CleanValue(val: string): string {
    StripBy(Strip(val), IsQuote)
  }

  /** The text that sets a value: `str()` of an `int`, `True`/`False`, or the string itself. */
  function ValueText(v: ConfigValue): string {
    match v
    case IntVal(n) => DecimalText(n)
    case BoolVal(b) => if b then "True" else "False"
    case StrVal(s) => s
  }

  /** A key the file format can carry unchanged. */
  predicate PlainKey(key: string) {
    ':' !in key && '#' !in key && '\n' !in key
    && (key != [] ==> !IsSpace(key[0]) && !IsSpace(key[|key| - 1]))
  }

  /** A value that survives the trip: a string value must not read as an `int` or a `bool`. */
  predicate PlainValue(v: ConfigValue) {
    v.StrVal? ==>
      var s := v.s;
      s != [] && ':' !in s && '#' !in s && '\n' !in s
      && !IsSpace(s[0]) && !IsSpace(s[|s| - 1]) && !IsQuote(s[0]) && !IsQuote(s[|s| - 1])
      && PyInt(s).None? && s != "True" && s != "False"
  }

  lemma IntTextCoerces(n: int)
    ensures Coerce(DecimalText(n)) == IntVal(n)
  {
    IntRoundTrip(n);
  }

  lemma IntTextEnds(n: int)
    ensures var s := DecimalText(n); s != [] && (s[0] == '-' || IsAsciiDigit(s[0])) && IsAsciiDigit(s[|s| - 1])
  {
    var t := NatText(if n < 0 then -n else n);
    var s := DecimalText(n);
    assert s[|s| - 1] == t[|t| - 1];
  }

  lemma IntTextChars(n: int)
    ensures forall c :: c in DecimalText(n) ==> c == '-' || IsAsciiDigit(c)
  {
  }

  /** Text that a line carries unchanged through the split and the trimming. */
  predicate PlainText(s: string) {
    s != [] && ':' !in s && '#' !in s && '\n' !in s
    && !IsSpace(s[0]) && !IsSpace(s[|s| - 1]) && !IsQuote(s[0]) && !IsQuote(s[|s| - 1])
  }

  lemma ValueTextPlain(v: ConfigValue)
    requires PlainValue(v)
    ensures PlainText(ValueText(v))
  {
    match v
    case IntVal(n) =>
      IntTextEnds(n);
      IntTextChars(n);
    case BoolVal(b) =>
    case StrVal(_) =>
  }

  lemma BoolTextCoerces(b: bool)
    ensures Coerce(if b then "True" else "False") == BoolVal(b)
  {
    var s := if b then "True" else "False";
    StripByKeeps(s, IsSpace);
    assert !IsAsciiDigit(s[0]) && s[0] != '+' && s[0] != '-';
    assert PyInt(s).None?;
  }

  /** Every value is read back from its own text. */
  lemma ValueTextCoerces(v: ConfigValue)
    requires PlainValue(v)
    ensures Coerce(ValueText(v)) == v
  {
    match v
    case IntVal(n) => IntTextCoerces(n);
    case BoolVal(b) => BoolTextCoerces(b);
    case StrVal(_) =>
  }

  /** Stripping a string with inner ends intact and a final newline gives the string back. */
  lemma StripNewline(s: string)
    requires s != [] && !IsSpace(s[0]) && !IsSpace(s[|s| - 1])
    ensures Strip(s + "\n") == s
  {
    var t := s + "\n";
    assert LeftEdge(t, IsSpace) == 0;
    assert t[..|t| - 1] == s;
    assert RightEdge(s, IsSpace) == |s|;
    assert t[0..|s|] == s;
  }

  lemma CleanNewline(s: string)
    requires PlainText(s)
    ensures CleanValue(s + "\n") == s
  {
    StripNewline(s);
    StripByKeeps(s, IsQuote);
  }

  /** The line holds no `#` and splits at its one `:` into the key and the value's text. */
  lemma LineSplits(key: string, text: string)
    requires PlainKey(key) && PlainText(text)
    ensures var line := key + ":" + text + "\n";
      OptionText(line) == line && line != [] && SplitPair(line, ':') == Some((key, text + "\n"))
  {
    var line := key + ":" + text + "\n";
    assert line == key + [':'] + (text + "\n");
    assert '#' !in line;
    SplitPairRoundTrip(line, key, text + "\n", ':');
  }

  /** A `key:value` line as written out is read back as the same key and value. */
  lemma LineRoundTrip(key: string, v: ConfigValue)
    requires PlainKey(key) && PlainValue(v)
    ensures LineEntry(key + ":" + ValueText(v) + "\n") == Ok(Some((key, v)))
  {
    var text := ValueText(v);
    ValueTextPlain(v);
    LineSplits(key, text);
    CleanNewline(text);
    ValueTextCoerces(v);
    StripByKeeps(key, IsSpace);
  }

  /** Only the text before the first `#` matters, and a line that starts with `#` sets nothing. */
  lemma CommentIgnored(line: string)
    requires '#' in line
    ensures LineEntry(line) == LineEntry(Before(line, '#'))
    ensures line[0] == '#' ==> LineEntry(line) == Ok(None)
  {
  }

  /** A value kept as a string is its text, which reads as neither a number nor a `bool`. */
  lemma CoercedString(text: string)
    requires Coerce(text).StrVal?
    ensures Coerce(text).s == text && PyInt(text).None? && text != "True" && text != "False"
  {
  }

  /** A key is read without surrounding whitespace; a string value without surrounding quotes, and never reads as a number or a `bool`. */
  lemma EntryTrimmed(line: string)
    requires LineEntry(line).Ok? && LineEntry(line).value.Some?
    ensures var (key, v) := LineEntry(line).value.value;
      (key != [] ==> !IsSpace(key[0]) && !IsSpace(key[|key| - 1]))
      && (v.StrVal? && v.s != [] ==> !IsQuote(v.s[0]) && !IsQuote(v.s[|v.s| - 1]))
      && (v.StrVal? ==> PyInt(v.s).None? && v.s != "True" && v.s != "False")
  {
    var opt := OptionText(line);
    var (param, val) := SplitPair(opt, ':').value;
    var text := CleanValue(val);
    assert LineEntry(line).value.value == (Strip(param), Coerce(text));
    if Coerce(text).StrVal? {
      CoercedString(text);
    }
  }

  /**
   * Whitespace inside the quotes stays: `key: ' x '` sets `key` to the
   * string ` x `, because the value is stripped of whitespace before its
   * quotes are removed.
   */
  lemma QuotedSpacesKept(key: string, x: char)
    requires PlainKey(key) && 'a' <= x <= 'z'
    ensures LineEntry(key + [':', ' ', '\'', ' ', x, ' ', '\'', '\n']) == Ok(Some((key, StrVal([' ', x, ' ']))))
  {
    var val := [' ', '\'', ' ', x, ' ', '\'', '\n'];
    assert key + [':', ' ', '\'', ' ', x, ' ', '\'', '\n'] == key + [':'] + val;
    LineEntryOf(key, val);
    StripByKeeps(key, IsSpace);
    QuotedValueCleaned(x);
    SpacedLetterIsString(x);
  }

  /** A line `key:val` with no other `:` and no `#` sets the stripped key to the cleaned, coerced value. */
  lemma LineEntryOf(key: string, val: string)
    requires ':' !in key && ':' !in val && '#' !in key && '#' !in val
    ensures LineEntry(key + [':'] + val) == Ok(Some((Strip(key), Coerce(CleanValue(val)))))
  {
    var line := key + [':'] + val;
    assert '#' !in line;
    SplitPairRoundTrip(line, key, val, ':');
  }

  lemma QuotedValueCleaned(x: char)
    requires 'a' <= x <= 'z'
    ensures CleanValue([' ', '\'', ' ', x, ' ', '\'', '\n']) == [' ', x, ' ']
  {
    SpacesAroundQuotes(x);
    QuotesAroundSpaces(x);
  }

  lemma SpacesAroundQuotes(x: char)
    requires 'a' <= x <= 'z'
    ensures Strip([' ', '\'', ' ', x, ' ', '\'', '\n']) == ['\'', ' ', x, ' ', '\'']
  {
    var val := [' ', '\'', ' ', x, ' ', '\'', '\n'];
    StripByExact(val, IsSpace, 1, 6);
    assert val[1..6] == ['\'', ' ', x, ' ', '\''];
  }

  lemma QuotesAroundSpaces(x: char)
    requires 'a' <= x <= 'z'
    ensures StripBy(['\'', ' ', x, ' ', '\''], IsQuote) == [' ', x, ' ']
  {
    var q := ['\'', ' ', x, ' ', '\''];
    StripByExact(q, IsQuote, 1, 4);
    assert q[1..4] == [' ', x, ' '];
  }

  lemma SpacedLetterIsString(x: char)
    requires 'a' <= x <= 'z'
    ensures Coerce([' ', x, ' ']) == StrVal([' ', x, ' '])
  {
    var t := [' ', x, ' '];
    StripByExact(t, IsSpace, 1, 2);
    assert t[1..2] == [x];
    assert PyInt(t) == None;
    assert t != "True" && t != "False" by { assert |t| == 3; }
  }

  // ---------------------------------------------------------------------------
  // The whole file
  // ---------------------------------------------------------------------------

  /** The dictionary the lines build, each line read by `entry`, the first failing line stopping it. */
  function OptionsOf(lines: seq<string>, entry: string -> Result<Option<(string, ConfigValue)>, ConfigError>)
    : Result<Options, ConfigError>
  {
    if lines == [] then Ok(map[])
    else match OptionsOf(lines[..|lines| - 1], entry)
      case Err(e) => Err(e)
      case Ok(m) =>
        match entry(lines[|lines| - 1])
        case Err(e) => Err(e)
        case Ok(None) => Ok(m)
        case Ok(Some((k, v))) => Ok(m[k := v])
  }

  /** `parseconfig`: a missing file gives an empty dictionary. */
  function ParseConfigSpec(file: ConfigFile): Result<Options, ConfigError> {
    match file
    case Missing => Ok(map[])
    case Present(text) => OptionsOf(FileLines(text), LineEntry)
  }

  /** Once a prefix of the lines fails, the whole file fails the same way. */
  lemma {:induction false} ErrorSticks(lines: seq<string>, k: nat,
                                       entry: string -> Result<Option<(string, ConfigValue)>, ConfigError>)
    requires k <= |lines| && OptionsOf(lines[..k], entry).Err?
    ensures OptionsOf(lines, entry) == OptionsOf(lines[..k], entry)
    decreases |lines|
  {
    if k < |lines| {
      assert lines[..|lines| - 1][..k] == lines[..k];
      ErrorSticks(lines[..|lines| - 1], k, entry);
    } else {
      assert lines[..k] == lines;
    }
  }

  /** The file fails exactly with the error of its first failing line. */
  lemma {:induction false} FirstErrorWins(lines: seq<string>,
                                          entry: string -> Result<Option<(string, ConfigValue)>, ConfigError>)
    ensures OptionsOf(lines, entry).Ok? <==> forall l :: l in lines ==> entry(l).Ok?
    ensures OptionsOf(lines, entry).Err? ==>
      exists i :: 0 <= i < |lines| && entry(lines[i]) == Err(OptionsOf(lines, entry).error)
                  && forall j :: 0 <= j < i ==> entry(lines[j]).Ok?
  {
    if lines != [] {
      var init := lines[..|lines| - 1];
      FirstErrorWins(init, entry);
      assert forall l :: l in lines <==> l in init || l == lines[|lines| - 1];
      if OptionsOf(init, entry).Err? {
        var i :| 0 <= i < |init| && entry(init[i]) == Err(OptionsOf(init, entry).error)
                 && forall j :: 0 <= j < i ==> entry(init[j]).Ok?;
        assert lines[i] == init[i];
      } else if OptionsOf(lines, entry).Err? {
        assert forall j :: 0 <= j < |init| ==> entry(lines[j]).Ok? by {
          forall j | 0 <= j < |init| ensures entry(lines[j]).Ok? {
            assert init[j] in init;
          }
        }
      }
    }
  }

  /** The line `i` sets `k` to `v`. */
  predicate Sets(entry: string -> Result<Option<(string, ConfigValue)>, ConfigError>, line: string, k: string) {
    entry(line).Ok? && entry(line).value.Some? && entry(line).value.value.0 == k
  }

  /** The dictionary holds exactly the keys some line sets. */
  lemma {:induction false} KeysSet(lines: seq<string>,
                                   entry: string -> Result<Option<(string, ConfigValue)>, ConfigError>, k: string)
    requires OptionsOf(lines, entry).Ok?
    ensures k in OptionsOf(lines, entry).value <==> exists i :: 0 <= i < |lines| && Sets(entry, lines[i], k)
  {
    if lines != [] {
      var n := |lines| - 1;
      var init := lines[..n];
      KeysSet(init, entry, k);
      if exists i :: 0 <= i < n && Sets(entry, init[i], k) {
        var i :| 0 <= i < n && Sets(entry, init[i], k);
        assert lines[i] == init[i];
      }
      if exists i :: 0 <= i < |lines| && Sets(entry, lines[i], k) {
        var i :| 0 <= i < |lines| && Sets(entry, lines[i], k);
        if i < n {
          assert init[i] == lines[i];
        }
      }
    }
  }

  /** When a key repeats, the last line that sets it wins. */
  lemma {:induction false} LastWins(lines: seq<string>,
                                    entry: string -> Result<Option<(string, ConfigValue)>, ConfigError>, i: nat)
    requires OptionsOf(lines, entry).Ok?
    requires i < |lines| && entry(lines[i]).Ok? && entry(lines[i]).value.Some?
    requires forall j :: i < j < |lines| ==> !Sets(entry, lines[j], entry(lines[i]).value.value.0)
    ensures var (k, v) := entry(lines[i]).value.value;
      k in OptionsOf(lines, entry).value && OptionsOf(lines, entry).value[k] == v
  {
    var n := |lines| - 1;
    if i < n {
      var init := lines[..n];
      assert init[i] == lines[i];
      forall j | i < j < n ensures !Sets(entry, init[j], entry(lines[i]).value.value.0) {
        assert init[j] == lines[j];
      }
      LastWins(init, entry, i);
    }
  }

  /** The `for line in infi` loop of `parseconfig`; `opt` is the text before `#`. */
  method ParseLines(lines: seq<string>) returns (r: Result<Options, ConfigError>)
    requires forall l :: l in lines ==> l != []
    ensures r == OptionsOf(lines, LineEntry)
  {
    var options: Options := map[];
    for n := 0 to |lines|
      invariant OptionsOf(lines[..n], LineEntry) == Ok(options)
    {
      var line := lines[n];
      assert lines[..n + 1][..n] == lines[..n];
      var opt: string;
      if '#' in line {
        opt := Before(line, '#');
      } else {
        // A line read from a file is never empty, so `elif line:` always binds `opt`.
        assert line in lines;
        opt := line;
      }
      if opt != [] {
        var split := SplitPair(opt, ':');
        if split.None? {
          ErrorSticks(lines, n + 1, LineEntry);
          return Err(MalformedOption(opt));
        }
        var (param, val) := split.value;
        options := options[Strip(param) := Coerce(CleanValue(val))];
      }
    }
    assert lines[..|lines|] == lines;
    return Ok(options);
  }

  /** `parseconfig`: only `FileNotFoundError` is caught, and gives an empty dictionary. */
  method ParseConfig(file: ConfigFile) returns (r: Result<Options, ConfigError>)
    ensures r == ParseConfigSpec(file)
    ensures file.Missing? ==> r == Ok(map[])
  {
    match file {
      case Missing =>
        return Ok(map[]);
      case Present(text) =>
        r := ParseLines(FileLines(text));
    }
  }

  // ---------------------------------------------------------------------------
  // Whitespace lines
  // ---------------------------------------------------------------------------

  /**
   * As written, a line whose text before `#` is only whitespace (a blank
   * line, an indented comment) is not empty, has no `:`, and stops the whole
   * file with `ValueError`.
   */
  lemma {:induction false} WhitespaceLineFails(a: seq<string>, w: string, b: seq<string>)
    requires '#' !in w && w != [] && forall c :: c in w ==> IsSpace(c)
    requires forall l :: l in a ==> LineEntry(l).Ok?
    ensures LineEntry(w) == Err(MalformedOption(w))
    ensures OptionsOf(a + [w] + b, LineEntry) == Err(MalformedOption(w))
  {
    assert ':' !in w;
    CountZero(w, ':');
    var lines := a + [w] + b;
    FirstErrorWins(a, LineEntry);
    assert (a + [w]) [..|a|] == a;
    assert lines[..|a| + 1] == a + [w];
    ErrorSticks(lines, |a| + 1, LineEntry);
  }

  /** What the format evidently intends for one line: a line blank before its `#` sets nothing. */
  function LineEntryIntended(line: string): Result<Option<(string, ConfigValue)>, ConfigError> {
    if Strip(OptionText(line)) == [] then Ok(None) else LineEntry(line)
  }

  /** A string that strips to nothing is whitespace throughout. */
  lemma StripsToNothing(s: string)
    requires Strip(s) == []
    ensures forall c :: c in s ==> IsSpace(c)
  {
    var i, j :| 0 <= i <= j <= |s| && Strip(s) == s[i..j]
      && (forall k :: 0 <= k < i ==> IsSpace(s[k]))
      && (forall k :: j <= k < |s| ==> IsSpace(s[k]));
    assert i == j;
  }

  /** The intended reading agrees with the code on every line the code accepts. */
  lemma IntendedAgreesOnAccepted(line: string)
    ensures LineEntry(line).Ok? ==> LineEntryIntended(line) == LineEntry(line)
  {
    var opt := OptionText(line);
    if opt != [] && Strip(opt) == [] {
      StripsToNothing(opt);
      assert ':' !in opt;
      CountZero(opt, ':');
      assert SplitPair(opt, ':').None?;
      assert LineEntry(line).Err?;
    }
  }

  /** A line that sets nothing can be dropped from anywhere in the file. */
  lemma {:induction false} SkipNothingLine(a: seq<string>, w: string, b: seq<string>,
                                           entry: string -> Result<Option<(string, ConfigValue)>, ConfigError>)
    requires entry(w) == Ok(None)
    ensures OptionsOf(a + [w] + b, entry) == OptionsOf(a + b, entry)
    decreases |b|
  {
    var lines := a + [w] + b;
    if b == [] {
      assert lines[..|lines| - 1] == a && lines[|lines| - 1] == w;
      assert a + b == a;
    } else {
      var b' := b[..|b| - 1];
      var last := b[|b| - 1];
      SkipNothingLine(a, w, b', entry);
      assert lines[..|lines| - 1] == a + [w] + b' && lines[|lines| - 1] == last;
      assert (a + b)[..|a + b| - 1] == a + b' && (a + b)[|a + b| - 1] == last;
    }
  }

  /** With the intended reading, a whitespace line anywhere changes nothing. */
  lemma IntendedSkipsWhitespaceLines(a: seq<string>, w: string, b: seq<string>)
    requires Strip(OptionText(w)) == []
    ensures OptionsOf(a + [w] + b, LineEntryIntended) == OptionsOf(a + b, LineEntryIntended)
  {
    assert LineEntryIntended(w) == Ok(None);
    SkipNothingLine(a, w, b, LineEntryIntended);
  }

  /** Two line readers that agree on every line build the same dictionary. */
  lemma {:induction false} SameReadingSameOptions(lines: seq<string>,
                                                  e1: string -> Result<Option<(string, ConfigValue)>, ConfigError>,
                                                  e2: string -> Result<Option<(string, ConfigValue)>, ConfigError>)
    requires forall l :: l in lines ==> e1(l) == e2(l)
    ensures OptionsOf(lines, e1) == OptionsOf(lines, e2)
  {
    if lines != [] {
      var init := lines[..|lines| - 1];
      assert forall l :: l in init ==> l in lines;
      assert lines[|lines| - 1] in lines;
      SameReadingSameOptions(init, e1, e2);
    }
  }

  /** Every file the code reads without error, the intended reading reads the same way. */
  lemma IntendedAgreesOnAcceptedFiles(lines: seq<string>)
    requires OptionsOf(lines, LineEntry).Ok?
    ensures OptionsOf(lines, LineEntryIntended) == OptionsOf(lines, LineEntry)
  {
    FirstErrorWins(lines, LineEntry);
    forall l | l in lines ensures LineEntryIntended(l) == LineEntry(l) {
      IntendedAgreesOnAccepted(l);
    }
    SameReadingSameOptions(lines, LineEntryIntended, LineEntry);
  }
}
