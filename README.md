# Sonarr YT-DLP scan core in Dafny

This project models the decision logic of a tool that keeps a Sonarr library
filled from YouTube-style sources. Each scan cycle runs four steps:

1. Bind the Sonarr series to the entries of a local YAML configuration, by
   exact title.
2. Select the monitored, file-less, already aired episodes of those series.
   The air date can be shifted by a per-series offset, and the Sonarr title
   can be rewritten by a per-series regex.
3. Compile each episode title into the `matchtitle` regular expression of a
   yt-dlp search.
4. Download what the search finds, ask Sonarr to rescan, and count the
   outcomes.

The models, by module:

- **`TextUtils`** and **`TitlePattern`**: the title-to-pattern compiler.
  - `TextUtils` reproduces the rewrite pipeline as written. It uses Python's
    `str.replace`, `re.escape` (Python 3.7 and later) and `re.sub`.
  - `TitlePattern` reads the compiled pattern as a sequence of regex atoms
    and gives their matching semantics under `IGNORECASE`. It proves that the
    compiled pattern matches the title it came from, and any text that
    differs only in the loosened spots.
- **`DateUtils`**: the air-date offset, on integer seconds of the proleptic
  Gregorian calendar.
- **`Config`**: the validator, the section and value accessors, and the
  caching `ConfigManager` class.
- **`YtdlpService`**: search options, download options, interpretation of
  the search result, and the outcome record of a download.
- **`App`**: all of the scan pipeline except the scheduler.
  - `_get_debug_mode`.
  - `filter_configured_series`.
  - `get_missing_episodes`, which edits the caller's series list in place,
    held in the class `SeriesList`.
  - `download_episodes`.
  - `run_scan`.
- **Support modules**:
  - `PyValue`: the dynamic Python/YAML values the configuration holds, with
    truthiness, `in`, `dict.get` and `int()`.
  - `Basics`: decimal rendering and ASCII case.
  - `Models`: the `Series`, `Episode` and `DownloadResult` records.

Collaborators are inputs. Each is a deterministic function of the call's
arguments:

- the Sonarr client (`App.Sonarr`: a value, an API error, or another
  exception);
- the yt-dlp engine (`YtdlpService.Service.extract` and `.download`);
- the cookie-file existence probe (`Service.cookieExists`);
- the regex engine of `apply_regex_transformation`, which gives a result or
  fails;
- `Series.apply_config`;
- the clock (`now`).

Two behaviours of the code that the model follows as written:

- The possessive step puts `([']?)` before every `S` followed by a
  backslash, which means before every escaped character (a space, `-`, `&`,
  ...). It does not do this only before an escaped period.
- A configured series that Sonarr does not monitor is kept. The pipeline
  never filters it out before downloading. Its monitored, file-less episodes
  are downloaded like any other.

## Model

| member | source | states |
|---|---|---|
| TextUtils.EscapeTitleForSearch | app/src/utils/text_utils.py:9-61 | the step-by-step result, with its two loops over the replacement dictionaries, is the composed pipeline `EscapeTitle`: upper-case, straighten quotes, `re.escape`, join `AND` with `&`, make punctuation optional, possessive; an empty title gives "" |
| TextUtils.ApplyRegexTransformation | app/src/utils/text_utils.py:64-83 | the substitution's result when the engine accepts the pattern, the text unchanged when it raises `re.error` |
| TextUtils.Replace | app/src/utils/text_utils.py:35-58 | definition: Python's `str.replace` for a non-empty pattern, scanning left to right with no overlapping occurrences; it models the quote, `AND` and punctuation replacements and the possessive `re.sub`, whose pattern is a plain two-character text, and `TitlePattern.ReplaceMatch` and `TitlePattern.ReplaceStep` unfold it |
| TextUtils.ReEscape | app/src/utils/text_utils.py:39 | definition: Python 3.7+ `re.escape`, a backslash before each special character; `TitlePattern.EscapeBridge` and `ReEscapePlain` state its properties |
| TextUtils.EscapeTitle | app/src/utils/text_utils.py:9-61 | definition: the composed pipeline (upper, quotes, escape, `AND`, punctuation, possessive; "" for an empty title); `TitlePattern.CompileBridge` and `CompiledPatternMatches` state what the result matches |
| TitlePattern.QuotesBridge | app/src/utils/text_utils.py:28-36 | the four `replace` calls in dictionary order turn each curly quote into its straight quote and leave every other character alone |
| TitlePattern.Straighten | app/src/utils/text_utils.py:28-36 | definition: each curly quote replaced by its straight quote, character by character; `QuotesBridge` proves it equal to the four `replace` calls and `StraightenUnchanged` states the identity case |
| TitlePattern.EscapeBridge | app/src/utils/text_utils.py:39 | `re.escape` of a text is the rendering of its atoms: a backslash before exactly the special characters |
| TitlePattern.JoinAndBridge | app/src/utils/text_utils.py:42 | replacing `\ AND\ ` by `\ (AND|&)\ ` on a rendered pattern turns each escaped-space-flanked `AND` into the alternation atom and nothing else |
| TitlePattern.JoinAnd | app/src/utils/text_utils.py:42 | definition: the left-to-right scan turning each escaped-space-flanked `AND` into the alternation atom; `JoinAndBridge` proves it equal to the text replacement and `JoinAndUnchanged` states the identity case |
| TitlePattern.OptionalBareBridge | app/src/utils/text_utils.py:45-55 | replacing a bare `'`, `,`, `!` or `:` by its optional group rewrites exactly those literal atoms |
| TitlePattern.OptionalEscapedBridge | app/src/utils/text_utils.py:45-55 | replacing `\.` or `\?` by its optional group rewrites exactly those escaped atoms |
| TitlePattern.LoosenBridge | app/src/utils/text_utils.py:45-55 | the six replacements, in dictionary order, make every optional mark optional and keep the pattern well formed |
| TitlePattern.Loosen | app/src/utils/text_utils.py:45-55 | definition: six passes in dictionary order, each making its mark optional (the literal atom for `'`, `,`, `!` and `:`, the escaped atom for `.` and `?`); `LoosenBridge` proves it equal to the six replacements and `LoosenUnchanged` states the identity case |
| TitlePattern.PossessiveBridge | app/src/utils/text_utils.py:57-58 | the last step puts `([']?)` before every `S` that precedes an escaped character |
| TitlePattern.Possessive | app/src/utils/text_utils.py:57-58 | definition: an optional apostrophe atom before each `S` atom followed by an escaped atom, the scan continuing after that atom; `PossessiveBridge` proves it equal to the `re.sub` and `PossessiveUnchanged` states the identity case |
| TitlePattern.PossessivePlainS | app/src/utils/text_utils.py:57-58 | an `S` not followed by an escaped character is left alone |
| TitlePattern.CompileBridge | app/src/utils/text_utils.py:21-58 | the compiled text is exactly the rendering of a well-formed atom sequence |
| TitlePattern.CompileAtoms | app/src/utils/text_utils.py:21-58 | definition: the quote, escape, `AND`, punctuation and possessive steps on the upper-cased title, no atoms for an empty title; `CompileBridge` proves its rendering is the compiled text and `CompiledPatternMatches` states what it matches |
| TitlePattern.Matches | app/src/services/ytdlp_service.py:98 | definition: when `matchtitle` accepts a whole text, letters compared ignoring ASCII case as `re.IGNORECASE` does, an optional atom matching its character or nothing, and the alternation matching `AND` in any case or `&`; `CompiledPatternMatches` and `CompiledPatternMatchesTitle` are stated in it |
| TitlePattern.Searches | app/src/services/ytdlp_service.py:98 | definition: `re.search` of the pattern in a video title, a match of some slice; `CompiledPatternFinds` is stated in it |
| TitlePattern.CompiledPatternMatches | app/src/utils/text_utils.py:41-58 | the compiled pattern matches every text that equals the quote-straightened title up to letter case, with any optional mark dropped, `AND` written as `&`, and an apostrophe inserted before any `S` that precedes a character other than `.` and `?` that `re.escape` escapes |
| TitlePattern.CompiledPatternMatchesTitle | app/src/utils/text_utils.py:9-61 | the compiled pattern matches the quote-straightened title itself, in upper, lower and original case |
| TitlePattern.CompiledPatternFinds | app/src/services/ytdlp_service.py:93-98 | used as a search, the pattern finds such a text anywhere inside a longer video title |
| TitlePattern.StraightenUnchanged | app/src/utils/text_utils.py:28-36 | a title without curly quotes is not changed by the quote step |
| TitlePattern.JoinAndUnchanged | app/src/utils/text_utils.py:42 | with no ` AND ` in the title, the `AND` step changes nothing |
| TitlePattern.LoosenUnchanged | app/src/utils/text_utils.py:45-55 | with no optional mark in the title, the punctuation step changes nothing |
| TitlePattern.PossessiveUnchanged | app/src/utils/text_utils.py:57-58 | with no `S` before a special character, the possessive step changes nothing |
| TitlePattern.ReEscapePlain | app/src/utils/text_utils.py:39 | `re.escape` leaves a text without special characters unchanged |
| TitlePattern.PlainTitle | app/src/utils/text_utils.py:25-58 | for a title without curly quotes, optional marks, ` AND ` or an `S` before a special character, the result is just `re.escape` of the upper-cased title |
| TitlePattern.TwoWordTitle | app/src/utils/text_utils.py:25-58 | two capital words give the words joined by an escaped space |
| TitlePattern.TestEpisodeExample | tests/test_simple.py:35-37 | "Test Episode" compiles to `TEST\ EPISODE`, which contains "TEST" and "EPISODE" |
| DateUtils.ApplyTimeOffset | app/src/utils/date_utils.py:10-40 | an empty offset returns the base; in every case the shift is a whole number of minutes |
| DateUtils.OffsetField | app/src/utils/date_utils.py:24-27 | definition: `int(offset.get(key, 0))`, None where `int` raises; `MissingKeyIsZero`, `TextFieldConverted` and `FloatFieldTruncated` state its cases |
| DateUtils.IntegerOffset | app/src/utils/date_utils.py:24-36 | integer fields shift the base by exactly ((7·weeks + days)·24 + hours)·3600 + minutes·60 seconds; all fields non-positive with one negative give an earlier date, all non-negative never an earlier one, all zero the base itself |
| PyValue.ToIntOfDecimalText | app/src/utils/date_utils.py:24-27 | `int()` of the decimal text of an integer is that integer |
| PyValue.TruncateNegative | app/src/utils/date_utils.py:24-27 | `int()` truncates floats toward zero: -2.5 gives -2, 2.5 gives 2 |
| PyValue.ToInt | app/src/utils/date_utils.py:24-27 | definition: Python's `int(v)`: booleans give 0 or 1, integers themselves, floats truncated, texts parsed, None, lists and dictionaries raise TypeError |
| PyValue.ParseInt | app/src/utils/date_utils.py:24-27 | definition: `int(s)` in base 10: surrounding whitespace stripped, an optional sign, digits grouped by single underscores; anything else raises ValueError; `ToIntOfDecimalText` and `DecimalTextRejected` state its cases |
| PyValue.Truthy | app/src/app.py:68 | definition: Python's `bool(v)`: None, False, 0, 0.0 and empty texts, lists and dictionaries are false |
| PyValue.Contains | app/src/services/ytdlp_service.py:213 | definition: `key in container`: a key of a dictionary, an element of a list, a substring of a text, TypeError for other values |
| PyValue.Get | app/src/utils/date_utils.py:24-27 | definition: `d.get(key, default)`, the stored value of a present key and the default otherwise; `DateUtils.MissingKeyIsZero` and `Config.ValueLookup` state it in use |
| Basics.Upper | app/src/utils/text_utils.py:25 | same length, no lower-case ASCII letter left, each character the same letter up to case, non-letters kept |
| Basics.Lower | app/src/app.py:67 | same length, no upper-case ASCII letter left, each character the same letter up to case, non-letters kept |
| DateUtils.MissingKeyIsZero | app/src/utils/date_utils.py:24-27 | a missing key counts as 0 |
| DateUtils.OtherKeysIgnored | app/src/utils/date_utils.py:24-27 | keys other than the four are never read |
| DateUtils.UnconvertibleFieldIgnored | app/src/utils/date_utils.py:38-40 | one field `int()` rejects makes the whole offset ignored |
| DateUtils.TextFieldConverted | app/src/utils/date_utils.py:24-27 | a field given as the decimal text of an integer counts as that integer |
| DateUtils.FloatFieldTruncated | app/src/utils/date_utils.py:24-27 | a float field is truncated toward zero (1.9 gives 1, -1.9 gives -1) |
| DateUtils.RejectedTextIgnored | app/src/utils/date_utils.py:38-40 | text such as "1.5" or "" is rejected by `int()` and the base is returned |
| DateUtils.DecimalTextRejected | app/src/utils/date_utils.py:24-27 | `int()` of a text made of a digit, a decimal point and a digit raises |
| DateUtils.MonthRollover | app/src/utils/date_utils.py:29-30 | one day added on the last day of a month lands on the first of the next |
| DateUtils.TestOffsetExample | tests/test_simple.py:53-58 | 2023-01-01 12:00 shifted by {days: 1, hours: 2} is 2023-01-02 14:00 |
| Config.CheckKeysOk | app/src/config/__init__.py:99-109 | a key check passes iff every required key is in the container |
| Config.CheckKeys | app/src/config/__init__.py:99-109 | definition: the loop over required keys, raising ConfigError with the first missing one and TypeError (Crash) on a non-container; `CheckKeysOk` and `FirstMissingSectionNamed` state its meaning |
| Config.CheckSeriesEntriesOk | app/src/config/__init__.py:115-119 | the entry check passes iff every entry is a dictionary with `title` and `url` |
| Config.CheckSeriesEntries | app/src/config/__init__.py:115-119 | definition: the loop over the series entries from a given index, failing at the first entry that is no dictionary or lacks `title` or `url`; `CheckSeriesEntriesOk` and `FirstBadEntryNamed` state its meaning |
| Config.ValidationAccepts | app/src/config/__init__.py:94-119 | validation passes iff the configuration is a dictionary with the three sections, a `sonarr` section holding host, port and apikey, and a `series` list of well-formed entries |
| Config.Acceptable | app/src/config/__init__.py:96-119 | definition: the accepted documents stated directly: a dictionary with the three sections, `host`, `port` and `apikey` in `sonarr`, and a `series` list of well-formed entries; `ValidationAccepts` proves it is exactly what `_validate_config` accepts |
| Config.Validation | app/src/config/__init__.py:94-119 | definition: `_validate_config`, the first failing check deciding the outcome; `ValidationAccepts`, `EmptyRejected`, `FirstMissingSectionNamed` and `FirstBadEntryNamed` state its meaning |
| Config.EmptyRejected | app/src/config/__init__.py:96-97 | an empty or falsy configuration is rejected as empty |
| Config.FirstMissingSectionNamed | app/src/config/__init__.py:99-102 | the error names the first missing section in the order sonarr, ytdl, series |
| Config.FirstBadEntryNamed | app/src/config/__init__.py:115-119 | the error names the index of the first bad entry, with the message for its kind of fault |
| Config.ValidateConfig | app/src/config/__init__.py:94-119 | the checks with their loops give exactly the outcome of `Validation` |
| Config.SectionOf | app/src/config/__init__.py:127-142 | a present section is returned, an absent one is a ConfigError naming it |
| Config.ValueOf | app/src/config/__init__.py:144-159 | a ConfigError gives the default, a dictionary section gives the key's value or the default, other failures propagate |
| Config.ValueLookup | app/src/config/__init__.py:144-159 | on a validated configuration, a missing section or key gives the default and a present key its stored value |
| Config.LoadFailure | app/src/config/__init__.py:58-72 | a missing, unreadable or malformed file never yields a configuration |
| Config.LoadStepAsWritten | app/src/config/__init__.py:54-72 | definition: one `load_config` as written, caching the document before it is validated; `RejectedConfigServedFromCache` shows the consequence |
| Config.LoadStep | app/src/config/__init__.py:54-72 | definition: one `load_config` caching only a validated document; `CorrectedLoadServesOnlyAcceptable` and `CachedConfigNotReread` state its properties |
| Config.RejectedConfigServedFromCache | app/src/config/__init__.py:61-67 | as written, a configuration without `sonarr` is rejected once and then served from the cache |
| Config.CorrectedLoadServesOnlyAcceptable | app/src/config/__init__.py:54-67 | with caching after validation, the cache and every configuration served are acceptable |
| Config.CachedConfigNotReread | app/src/config/__init__.py:54-56 | once cached, later loads return the cached value without reading the file |
| Config.ConfigManager.constructor | app/src/config/__init__.py:22-32 | nothing is cached at first |
| Config.ConfigManager.LoadConfig | app/src/config/__init__.py:45-72 | the new cache and result are the load step of the old cache; the cache stays empty, becomes acceptable, or is unchanged |
| Config.ConfigManager.GetConfig | app/src/config/__init__.py:121-125 | the same as loading |
| Config.ConfigManager.GetSection | app/src/config/__init__.py:127-142 | the section after loading, or the load's failure |
| Config.ConfigManager.GetValue | app/src/config/__init__.py:144-159 | the value after loading the section, with a ConfigError giving the default |
| YtdlpService.WithCookies | app/src/services/ytdlp_service.py:109-115 | `cookiefile` is set to the joined path iff a cookies file is named and exists; the other options are kept |
| YtdlpService.JoinPath | app/src/services/ytdlp_service.py:110 | definition: `str(config_dir / cookies_file)`, an absolute name replacing the directory; `WithCookies` and `SearchOptions` state the `cookiefile` it gives |
| YtdlpService.SearchOptions | app/src/services/ytdlp_service.py:81-117 | `matchtitle` is the compiled title; `ignoreerrors` is set; `playlistreverse` is as given; quiet and no_warnings are off exactly in debug; logger and debug hook are present iff debug; `cookiefile` iff the file exists |
| YtdlpService.PlainSearchOptions | app/src/services/ytdlp_service.py:94-100 | the five entries set on every search, with no logger, hook or cookie entry |
| YtdlpService.WithDebugSearch | app/src/services/ytdlp_service.py:102-106 | the logger and the debug hook are present iff debugging or already present; every other entry is kept |
| YtdlpService.SearchPatternAcceptsTitle | app/src/services/ytdlp_service.py:93-98 | the `matchtitle` regex matches the episode's own (quote-straightened) title |
| YtdlpService.EpisodeCodeReadsBack | app/src/services/ytdlp_service.py:137 | for season and episode numbers below 100, `S{s:02d}E{e:02d}` is six characters whose two-digit fields read back as the numbers; a number below 10 gets a leading zero |
| YtdlpService.EpisodeCode | app/src/services/ytdlp_service.py:137 | definition: `S{season:02d}E{episode:02d}`; `EpisodeCodeReadsBack` states its width and that both fields read back |
| YtdlpService.OutputTemplate | app/src/services/ytdlp_service.py:135-139 | definition: the f-string output template; `OutputTemplateShape` states its shape |
| Basics.Pad2Facts | app/src/services/ytdlp_service.py:137 | `{n:02d}` is at least two characters, zero-padded below 10, otherwise the plain decimal text, and reads back as n |
| Basics.IntToStrRoundTrip | app/src/services/ytdlp_service.py:136 | the decimal text of an integer is non-empty, all digits after an optional sign, and reads back as the integer |
| Basics.IntToStr | app/src/services/ytdlp_service.py:136 | definition: `str(n)`, a minus sign before the digits of a negative number; `IntToStrRoundTrip` states that it reads back |
| Basics.Pad2 | app/src/services/ytdlp_service.py:137 | definition: `{n:02d}`, zero padding after the sign up to width two; `Pad2Facts` states its shape and that it reads back |
| YtdlpService.OutputTemplateShape | app/src/services/ytdlp_service.py:135-139 | the template is `/sonarr_root{path}/Season {s}/{title} - S..E.. - {episode title} WEBDL.%(ext)s`, with the season number unpadded in the directory |
| YtdlpService.BaseDownloadOptions | app/src/services/ytdlp_service.py:132-149 | the format is the series format when set, else the default; mkv merge and remux, noplaylist, quiet unless debug, one progress hook chosen by debug, the output template; exactly these seven keys |
| YtdlpService.WithSubtitles | app/src/services/ytdlp_service.py:158-175 | the subtitle keys and the two postprocessors are added iff subtitles are enabled, other keys kept |
| YtdlpService.DownloadOptionsFixed | app/src/services/ytdlp_service.py:132-149 | the download options hold the format fallback, the output template, mkv, noplaylist, quiet and the hook |
| YtdlpService.DownloadOptionsGated | app/src/services/ytdlp_service.py:151-180 | subtitle keys iff enabled, with the series' values; logger iff debug; `cookiefile` iff the file exists |
| YtdlpService.DownloadOptions | app/src/services/ytdlp_service.py:132-182 | definition: the base options, then cookies, subtitles and the logger; `DownloadOptionsFixed` and `DownloadOptionsGated` state its entries |
| YtdlpService.WithLogger | app/src/services/ytdlp_service.py:177-180 | the logger is present iff debugging or already present; every other entry is kept |
| YtdlpService.SearchForEpisode | app/src/services/ytdlp_service.py:184-230 | found implies a non-empty url that differs from the series url; not found gives ""; an empty series url gives (False, ""); `SearchDecided` says which url is returned |
| YtdlpService.CandidateUrl | app/src/services/ytdlp_service.py:212-219 | definition: the `video_url` the code computes from a truthy result, None where the `try` body raises; `SearchDecided` ties it to `Candidate` |
| YtdlpService.WebpageUrl | app/src/services/ytdlp_service.py:216-219 | definition: `x.get('webpage_url')`, None (the `except` path) where x has no `.get`; `SearchDecided` states its use through `Candidate` |
| YtdlpService.Candidate | app/src/services/ytdlp_service.py:213-219 | definition: the candidate url read from a dictionary result's shape, independent of `CandidateUrl`; `SearchDecided` ties the search's outcome to it |
| YtdlpService.SearchDecided | app/src/services/ytdlp_service.py:196-230 | for every dictionary result of a non-empty series url: found exactly when the candidate (the first entry's `webpage_url` for a non-empty `entries` list, none for other truthy `entries`, else the top-level `webpage_url`) is a non-empty string other than the series url, and then the url returned is that candidate; otherwise (False, "") |
| YtdlpService.PlaylistFirstEntryFound | app/src/services/ytdlp_service.py:213-216 | with a non-empty `entries` list whose first entry is a dictionary holding a usable `webpage_url`, that url is returned, whatever the other keys of that entry, the later entries or the top-level url |
| YtdlpService.SingleVideoFound | app/src/services/ytdlp_service.py:217-219 | without entries, the top-level `webpage_url` is the candidate |
| YtdlpService.SourceUrlRejected | app/src/services/ytdlp_service.py:221-226 | a candidate equal to the series url, from the first entry or from the top level, is not found |
| YtdlpService.MissingCandidateNotFound | app/src/services/ytdlp_service.py:212-226 | no candidate, an empty one, or one that is not a text gives (False, "") |
| YtdlpService.SearchFailuresNotFound | app/src/services/ytdlp_service.py:209-211 | an empty result or an exception gives (False, "") |
| YtdlpService.DownloadEpisode | app/src/services/ytdlp_service.py:232-268 | same series, episode and url; success iff the download raised nothing iff there is no error message; the message is "Failed to download {title}: {error}" |
| App.DebugMode | app/src/app.py:63-68 | a value is read exactly when the `debug` lookup succeeds |
| App.DebugFlagMeaning | app/src/app.py:66-68 | a text value is on iff it spells true, 1, yes or on in any case of ASCII letters; any other value is on iff truthy |
| App.DebugFlagExamples | app/src/app.py:66-68 | "Yes", "ON" and "1" are on; "false", "0" and "yes " are off; 2 is on; False and None are off |
| App.DebugModeFromConfig | app/src/app.py:63-68 | without a `sonarrytdl` section debugging is off; otherwise it follows the section's `debug` entry, missing meaning off |
| App.DebugFlag | app/src/app.py:66-68 | definition: a text is on iff its lower-case form is one of the four words, any other value iff truthy; `DebugFlagMeaning` and `DebugFlagExamples` state its meaning |
| App.FirstMatch | app/src/app.py:127-131 | the entry found is a dictionary in the list whose title equals the series title; none is found iff no entry binds the title |
| App.Binds | app/src/app.py:129 | definition: `isinstance(config, dict) and config.get('title') == series.title`; `FirstMatch`, `FirstMatchWins` and `ConfiguredOneIff` are stated in it |
| App.FirstMatchWins | app/src/app.py:128-131 | the first binding entry wins over later ones; entries that do not bind, non-dictionaries included, are passed over |
| App.ConfiguredAppend | app/src/app.py:125-136 | each catalog series contributes in its place, so catalog order is kept |
| App.ConfiguredMembership | app/src/app.py:125-136 | the result holds exactly the catalog series with a binding entry, each with its first such entry applied |
| App.ConfiguredOneMembership | app/src/app.py:127-136 | one catalog series contributes x iff its first binding entry exists and applying it gives x |
| App.ConfiguredOne | app/src/app.py:127-136 | definition: one catalog series' contribution, its first binding entry applied when that entry is truthy; `ConfiguredOneMembership` and `ConfiguredOneIff` state its meaning |
| App.ConfiguredOneIff | app/src/app.py:133-140 | a series is kept iff an entry binds its title, whether or not Sonarr monitors it |
| App.Configured | app/src/app.py:125-136 | definition: the catalog series with a matching configuration, configuration applied, in catalog order; `ConfiguredMembership` and `ConfiguredAppend` state its meaning |
| App.FilterConfiguredSeries | app/src/app.py:100-147 | any error fetching the series gives []; otherwise the nested loops give exactly `Configured` |
| App.EffectiveAirDate | app/src/app.py:180-184 | the offset is applied only when set, which equals applying it always |
| App.Retitled | app/src/app.py:190-196 | only the title can change, and it does not change unless both regex settings are set |
| App.Wanted | app/src/app.py:172-188 | definition: monitored, without a file, and aired by now after the offset (no air date counts as aired); `AirDateRule` states the air-date case |
| App.SeriesMissing | app/src/app.py:170-199 | definition: the wanted episodes of one series, retitled, in Sonarr's order; `SeriesMissingMembership` and `SeriesMissingWanted` state its meaning |
| App.SeriesMissingMembership | app/src/app.py:170-199 | an episode is reported iff it is monitored, has no file and has aired, and then with its rewritten title |
| App.SeriesMissingWanted | app/src/app.py:172-188 | no reported episode is unmonitored, has a file or is not yet aired |
| App.AirDateRule | app/src/app.py:179-188 | an episode with an air date is skipped iff the offset air date is after now; one without an air date is kept |
| App.CollectMissing | app/src/app.py:168-199 | the inner loop computes `SeriesMissing` |
| App.RemoveFirst | app/src/app.py:209-210 | a missing series leaves the list unchanged; otherwise the list loses one element |
| App.RemoveFirstMultiset | app/src/app.py:209-210 | exactly one occurrence of the series is removed |
| App.RemoveFirstAfter | app/src/app.py:209-210 | the removed occurrence is the first one |
| App.Kept | app/src/app.py:201-210 | the series that stay are listed series with something missing or whose fetch failed |
| App.ScanStep | app/src/app.py:161-210 | definition: one pass of the outer loop: an API error skips the series, another exception ends the scan, nothing missing removes the series, else its episodes are collected |
| App.Scan | app/src/app.py:161-210 | definition: the scan steps over the copy of the list; `ScanRemaining`, `ScanKeepsListed`, `ScanMissingWanted` and `ScanMissingOwner` state its meaning |
| App.ScanRemaining | app/src/app.py:161-210 | while no other exception escapes, the list after k series is the kept ones among them followed by the rest |
| App.ScanKeepsListed | app/src/app.py:161-166 | a completed scan leaves exactly the kept series in order; a series whose fetch raised an API error stays |
| App.ScanMissingWanted | app/src/app.py:170-199 | every episode the scan reports is monitored, has no file and has aired for its series |
| App.ScanMissingOwner | app/src/app.py:163-199 | every reported episode comes from the episodes Sonarr listed for a series of the list |
| App.SeriesList.constructor | app/src/app.py:149 | the list holds the given series |
| App.SeriesList.Discard | app/src/app.py:209-210 | remove the first equal series, if any |
| App.GetMissingEpisodes | app/src/app.py:149-212 | the list, the missing episodes and whether an exception other than an API error escaped are exactly the scan of the original list |
| App.EpisodesOf | app/src/app.py:236 | exactly the episodes of that series, in order |
| App.SeriesJobs | app/src/app.py:236-238 | one pair per episode of the series, in order |
| App.Jobs | app/src/app.py:232-238 | definition: the (series, episode) pairs the nested loops visit, in order; `JobsMembership` states which pairs occur and `CountBalanced` and `DownloadEpisodes` are stated in it |
| App.JobsMembership | app/src/app.py:232-238 | a (series, episode) pair is attempted iff the series is listed and the episode names it |
| App.AttemptOf | app/src/app.py:242-267 | definition: not found, download failed or downloaded, by the search and the download of the found url; `AttemptDownloaded` states it |
| App.Record | app/src/app.py:239-264 | definition: one attempt counted in the total and as a success or failure, a success also asking for a rescan whose non-API exception ends the loop |
| App.TallyStep | app/src/app.py:238-267 | definition: one pass of the inner loop, nothing counted once a rescan has raised |
| App.Count | app/src/app.py:232-269 | definition: the tallies of all pairs in order; `CountBalanced`, `CountFrozen` and `RescanApiErrorsIgnored` state its properties |
| App.CountBalanced | app/src/app.py:228-269 | success + failed = total; one rescan per success; when no rescan raised, total is the number of pairs and success the number of found and downloaded episodes |
| App.RescanApiErrorsIgnored | app/src/app.py:255-260 | rescans failing with API errors change nothing compared with rescans that succeed |
| App.ProcessEpisode | app/src/app.py:239-267 | one episode counts as total and as a success or a failure, with a rescan after a success |
| App.AttemptDownloaded | app/src/app.py:242-251 | an episode counts as downloaded iff the search found it and the download of the found URL succeeded |
| App.DownloadSeries | app/src/app.py:238-267 | the inner loop counts the series' pairs, stopping only when a rescan raised |
| App.DownloadEpisodes | app/src/app.py:214-269 | an empty list gives all zeros; otherwise the statistics, the rescans and the escape flag are `Count` of the pairs |
| App.CountFrozen | app/src/app.py:256-260 | after a rescan raised, nothing more is counted |
| App.SeriesEntries | app/src/app.py:122 | the `series` section of a validated configuration holds well-formed entries |
| App.ScanCycleBalanced | app/src/app.py:271-313 | a completed cycle balances its counts, and with a consistent Sonarr it attempted at least one episode |
| App.ScanJobsNonEmpty | app/src/app.py:291-301 | a scan that found missing episodes leaves at least one pair to attempt |
| App.ScanCycle | app/src/app.py:278-313 | definition: the cycle's early exits for no series and no missing episodes, the scan, the downloads and the catch-all; `ScanCycleBalanced` states its properties |
| App.RunScan | app/src/app.py:271-313 | the early exits, the steps and the catch-all handler give exactly `ScanCycle` |

## Left out

- The scheduler (`run_scheduler`), timing and the logged duration: timer loops and floating-point time.
- `parse_air_date`: a wrapper over `strptime`. Air dates are integer seconds here.
- Sub-second time: air dates and the clock are whole seconds.
- The comparison of a Sonarr UTC air date with `datetime.now()`: both are taken to be on one timeline. Mixing aware and naive datetimes is not modelled.
- `OverflowError` of `timedelta` and of `datetime` arithmetic: integers are unbounded.
- A truthy offset that is not a dictionary: the offset is typed as a map.
- The Sonarr HTTP client: its results are inputs.
- The yt-dlp engine, the progress hooks and `YTDLPLogger`: hooks and the logger are tags in the options.
- The cookie-file existence probe: a parameter of the service.
- `pathlib` path joining: an absolute cookies path replaces the directory, and other normalisation is not modelled.
- The filesystem, the YAML parser, the missing-file handler with its template copy, `sys.exit` and the `CONFIGPATH` lookup. The file is an input that is missing, unreadable, malformed or a document; a missing file ends in `Exit`.
- `Config.ConfigManager`: the class uses the corrected load step (see Findings). The code as written is modelled by `Config.LoadStepAsWritten`.
- The `models` module: `Series` and `Episode` are records of the fields read here, and `Series.apply_config` is a parameter. A `None` field is its falsy value.
- Case mapping is ASCII only. Non-ASCII letters are not upper- or lower-cased.
- The title rewrite is a value update, where the code assigns `episode.title` in place. Each episode object is referenced only from the two result lists, so no one else sees the change.
- `filter_configured_series` returns new series values, where the code applies the configuration to the catalog's objects in place. The catalog is not used afterwards.
- Series equality in `series_list.remove` is value equality. With one object per catalog series this removes the same element.
- `SonarrYTDLPApp.__init__` and `_initialize_services`: plumbing. The application holds a validated configuration.
- Logging and the debug `print` calls.
- YtdlpService.SearchForEpisode: a truthy `webpage_url` that is not a string is treated as not found.
- PyValue.ToInt: `int()` of an infinite float raises OverflowError, which `apply_time_offset` does not catch (date_utils.py:38 names only ValueError and TypeError), so it reaches the catch-all of `run_scan`. Floats are reals here and have no infinity or NaN.
- PyValue.ParseInt: Python's `int()` also accepts non-ASCII decimal digits and non-ASCII whitespace, which `ParseInt` rejects: only ASCII digits and whitespace are modelled.
- App.DebugMode: the mapping from the configuration to the flag is stated by DebugFlagMeaning and DebugModeFromConfig; its own contract only says when a value is read.

## Findings

| source | as written | input that shows it | evidently intended | confidence | as-written member | corrected member |
|---|---|---|---|---|---|---|
| app/src/config/__init__.py:61-67 | `load_config` stores the parsed document in the cache before `_validate_config` runs, so a rejected document stays cached and the next `load_config` or `get_config` returns it unvalidated | a document with `ytdl` and `series` but no `sonarr`: the first load raises ConfigError, the second returns the document | cache only a document that passed validation | not executed; latent in the application, which exits on the first ConfigError | Config.RejectedConfigServedFromCache | Config.CorrectedLoadServesOnlyAcceptable |
