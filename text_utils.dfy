/** The text utilities of the application: the compiler that turns an episode
    title into the `matchtitle` pattern handed to yt-dlp, and the fail-open
    wrapper around `re.sub` used for per-series title rewriting
    (app/src/utils/text_utils.py). */
module TextUtils {
  import opened Basics

  /** Python's `s.replace(pat, rep)` for a non-empty pattern: occurrences are
      found from left to right and never overlap. */
  function Replace(s: string, pat: string, rep: string): string
    requires |pat| > 0
    decreases |s|
  {
    if |s| < |pat| then s
    else if s[..|pat|] == pat then rep + Replace(s[|pat|..], pat, rep)
    else [s[0]] + Replace(s[1..], pat, rep)
  }

  /** A replacement dictionary, in its insertion (= iteration) order. */
  type Table = seq<(string, string)>

  predicate ValidTable(t: Table)
  {
    forall i :: 0 <= i < |t| ==> |t[i].0| > 0
  }

  /** The effect of `for old, new in t.items(): s = s.replace(old, new)`. */
  function ApplyTable(s: string, t: Table): string
    requires ValidTable(t)
    decreases |t|
  {
    if t == [] then s
    else Replace(ApplyTable(s, t[..|t| - 1]), t[|t| - 1].0, t[|t| - 1].1)
  }

  const LeftSingleQuote: char := '\U{2018}'
  const RightSingleQuote: char := '\U{2019}'
  const LeftDoubleQuote: char := '\U{201C}'
  const RightDoubleQuote: char := '\U{201D}'

  /** The quote table, lines 28-33 of text_utils.py. */
  const QuoteReplacements: Table :=
    [([LeftSingleQuote], "'"), ([RightSingleQuote], "'"),
     ([LeftDoubleQuote], "\""), ([RightDoubleQuote], "\"")]

  /** The characters Python 3.7+ `re.escape` puts a backslash in front of. */
  predicate IsRegexSpecial(c: char)
  {
    || c == '(' || c == ')' || c == '[' || c == ']' || c == '{' || c == '}'
    || c == '?' || c == '*' || c == '+' || c == '-' || c == '|' || c == '^'
    || c == '$' || c == '\\' || c == '.' || c == '&' || c == '~' || c == '#'
    || c == ' ' || '\t' <= c <= '\r'   // tab, newline, vertical tab, form feed, carriage return
  }

  /** Python 3.7+ `re.escape`. */
  function ReEscape(s: string): string
  {
    if s == [] then []
    else (if IsRegexSpecial(s[0]) then ['\\', s[0]] else [s[0]]) + ReEscape(s[1..])
  }

  /** `\ AND\ ` and its replacement `\ (AND|&)\ `. */
  const AndToken: string := "\\ AND\\ "
  const AndOrAmpersand: string := "\\ (AND|&)\\ "

  /** The punctuation table, lines 45-52 of text_utils.py. */
  const PunctuationOptional: Table :=
    [("'", "([']?)"), (",", "([,]?)"), ("!", "([!]?)"),
     ("\\.", "([.]?)"), ("\\?", "([?]?)"), (":", "([:]?)")]

  /** The possessive rewrite `re.sub(r'S\\', r"([']?)S\\", ...)`: the pattern
      matches the two characters `S\`, and the replacement template stands for
      the text `([']?)S\`. */
  const PossessiveToken: string := "S\\"
  const PossessiveOptional: string := "([']?)S\\"

  /** `escape_title_for_search` as a composition of its steps. */
  function EscapeTitle(title: string): string
  {
    if title == [] then ""
    else
      var upper := Upper(title);
      var straight := ApplyTable(upper, QuoteReplacements);
      var escaped := ReEscape(straight);
      var joined := Replace(escaped, AndToken, AndOrAmpersand);
      var loose := ApplyTable(joined, PunctuationOptional);
      Replace(loose, PossessiveToken, PossessiveOptional)
  }

  /** `escape_title_for_search`, step by step with its two loops over the
      replacement dictionaries. */
  method EscapeTitleForSearch(title: string) returns (processed: string)
    ensures processed == EscapeTitle(title)
    ensures title == [] ==> processed == ""
  {
    if title == [] {
      return "";
    }
    processed := Upper(title);
    ghost var upper := processed;
    for i := 0 to |QuoteReplacements|
      invariant processed == ApplyTable(upper, QuoteReplacements[..i])
    {
      var entry := QuoteReplacements[i];
      assert QuoteReplacements[..i + 1][..i] == QuoteReplacements[..i];
      processed := Replace(processed, entry.0, entry.1);
    }
    assert QuoteReplacements[..|QuoteReplacements|] == QuoteReplacements;
    processed := ReEscape(processed);
    processed := Replace(processed, AndToken, AndOrAmpersand);
    ghost var joined := processed;
    for i := 0 to |PunctuationOptional|
      invariant processed == ApplyTable(joined, PunctuationOptional[..i])
    {
      var entry := PunctuationOptional[i];
      assert PunctuationOptional[..i + 1][..i] == PunctuationOptional[..i];
      processed := Replace(processed, entry.0, entry.1);
    }
    assert PunctuationOptional[..|PunctuationOptional|] == PunctuationOptional;
    processed := Replace(processed, PossessiveToken, PossessiveOptional);
  }

  /** The regular-expression engine behind `re.sub(pattern, replacement, text)`:
      the substituted text, or None when the engine raises `re.error`. */
  type RegexEngine = (string, string, string) -> Option<string>

  /** `apply_regex_transformation`: the engine's result when the pattern is
      valid, the text unchanged when it is not. */
  function ApplyRegexTransformation(sub: RegexEngine, text: string, pattern: string, replacement: string): (r: string)
    ensures sub(pattern, replacement, text).Some? ==> r == sub(pattern, replacement, text).value
    ensures sub(pattern, replacement, text).None? ==> r == text
  {
    match sub(pattern, replacement, text)
    case Some(result) => result
    case None => text
  }
}
